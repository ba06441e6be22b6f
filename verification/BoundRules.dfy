/**
 * Limits on values and lengths: how adding, removing or moving one, alone or together with
 * its inclusive or exclusive partner, moves what the contract permits.
 */
module BoundRules {
  import opened Wrappers
  import opened JsonTrees
  import opened Breaking
  import opened NumberProbes
  import opened QualityRules

  const MINIMA: seq<string> := ["minimum", "exclusiveMinimum"]
  const MAXIMA: seq<string> := ["maximum", "exclusiveMaximum"]

  /** The inclusive and the exclusive form of the bound `key` belongs to. */
  function Group(key: string): seq<string> {
    if key in MINIMA then MINIMA else if key in MAXIMA then MAXIMA else []
  }

  /** `{k: number(str(options[k])) for k in group}`, one bound at a time. */
  datatype Limit = Absent | Limit(value: real) | Unreadable | Unbounded

  function LimitOf(host: Host, options: Dict, key: string): Limit {
    if Get(options, key) == Null then Absent
    else match host.number(host.str(Get(options, key)))
      case Unread => Unreadable
      case Reads(r) => Limit(r)
      case _ => Unbounded
  }

  /** Which side a bound limits, and whether it excludes the bound itself. */
  datatype Form = Form(lower: bool, exclusive: bool)

  function FormOf(key: string): Form {
    Form(key in MINIMA, key == "exclusiveMinimum" || key == "exclusiveMaximum")
  }

  predicate Accepts(form: Form, limit: Limit, value: real) {
    limit.Limit? ==>
      match form
      case Form(true, false) => value >= limit.value
      case Form(true, true) => value > limit.value
      case Form(false, false) => value <= limit.value
      case Form(false, true) => value < limit.value
  }

  /** A date holds whole days, which `number` reads as midnights in seconds. */
  function Scale(limit: Limit, propertyType: Json): Limit {
    if limit.Limit? && propertyType == Text("date") then Limit(limit.value / 86400.0) else limit
  }

  predicate HoldsIntegers(propertyType: Json) { propertyType in [Text("integer"), Text("date")] }

  /** What a version of the group accepts. */
  function GroupAccepts(host: Host, options: Dict, group: seq<string>, propertyType: Json): real -> bool {
    x => forall n :: 0 <= n < |group| ==>
      Accepts(FormOf(group[n]), Scale(LimitOf(host, options, group[n]), propertyType), x)
  }

  function BoundOfLimit(limit: Limit): Bound {
    if limit.Limit? then Number(limit.value) else Missing
  }

  function GroupBounds(host: Host, options: Dict, group: seq<string>, propertyType: Json): seq<Bound> {
    seq(|group|, n requires 0 <= n < |group| => BoundOfLimit(Scale(LimitOf(host, options, group[n]), propertyType)))
  }

  predicate PartnerSet(key: string, group: seq<string>, before: Dict, after: Dict) {
    exists n :: 0 <= n < |group| && group[n] != key && (Get(before, group[n]) != Null || Get(after, group[n]) != Null)
  }

  /** Every limit that is set reads as a finite number. */
  predicate Readable(host: Host, options: Dict, group: seq<string>) {
    forall n :: 0 <= n < |group| ==> LimitOf(host, options, group[n]).Absent? || LimitOf(host, options, group[n]).Limit?
  }

  predicate SomeUnreadable(host: Host, options: Dict, group: seq<string>) {
    exists n :: 0 <= n < |group| && LimitOf(host, options, group[n]).Unreadable?
  }

  /** The direction over probes around the limits of both versions. */
  function ComparedDirection(host: Host, before: Dict, after: Dict, propertyType: Json, group: seq<string>): Grading {
    var bounds := GroupBounds(host, before, group, propertyType) + GroupBounds(host, after, group, propertyType);
    match Probes(bounds, HoldsIntegers(propertyType))
    case Points(probes) =>
      Graded(AcceptedDirection(
        GroupAccepts(host, before, group, propertyType), GroupAccepts(host, after, group, propertyType), probes))
    case _ => Raises
  }

  function ReplacedDirection(host: Host, before: Dict, after: Dict, propertyType: Json, key: string): Grading {
    var group := Group(key);
    if Some(key) != Carrier(before, after, group) then Graded(Untested)
    else if SomeUnreadable(host, before, group) || SomeUnreadable(host, after, group) then Graded(Undetermined)
    else if !Readable(host, before, group) || !Readable(host, after, group) then
      // No integers lie around an infinity.
      if HoldsIntegers(propertyType) then Raises else Graded(host.unbounded(before, after, key))
    else ComparedDirection(host, before, after, propertyType, group)
  }

  /** `a < b` between floats, which no NaN is part of. */
  predicate Below(a: Reading, b: Reading) {
    match a
    case Reads(x) => (b.Reads? && x < b.value) || b == Infinite(true)
    case Infinite(positive) => !positive && (b.Reads? || b == Infinite(true))
    case _ => false
  }

  function MovedDirection(key: string, old': Reading, new': Reading): Direction {
    if old'.Unread? || new'.Unread? then Undetermined
    else if old' == new' && !old'.NotANumber? then Untested
    else if key in ["minLength", "minimum", "exclusiveMinimum", "minItems"] then
      if Below(old', new') then Tightens else Loosens
    else if Below(new', old') then Tightens else Loosens
  }

  function Parse(host: Host, value: Option<string>): Reading {
    match value
    case None => Unread
    case Some(s) => host.number(s)
  }

  /** The direction of a change of `key` among the options of a property. */
  function BoundDirection(
      host: Host, before: Dict, after: Dict, propertyType: Json, key: string,
      kind: ChangeType, oldValue: Option<string>, newValue: Option<string>): Grading
  {
    if !kind.Updated? && PartnerSet(key, Group(key), before, after)
    then ReplacedDirection(host, before, after, propertyType, key)
    else match kind
      case Added => Graded(Tightens)
      case Removed => Graded(Loosens)
      case Updated =>
        Graded(if key == "pattern" then Undetermined
               else MovedDirection(key, Parse(host, oldValue), Parse(host, newValue)))
  }

  // ---------------------------------------------------------------- The entries of a bound group

  /** How `key` itself changed. */
  function KindOf(before: Dict, after: Dict, key: string): Option<ChangeType> {
    if Get(before, key) == Get(after, key) then None
    else if Get(before, key) == Null then Some(Added)
    else if Get(after, key) == Null then Some(Removed)
    else Some(Updated)
  }

  function ValueText(host: Host, options: Dict, key: string): Option<string> {
    if Get(options, key) == Null then None else Some(host.str(Get(options, key)))
  }

  /** The direction reported for the entry of `key`. */
  function Reported(host: Host, before: Dict, after: Dict, propertyType: Json, key: string): Grading
    requires KindOf(before, after, key).Some?
  {
    BoundDirection(host, before, after, propertyType, key, KindOf(before, after, key).value,
                   ValueText(host, before, key), ValueText(host, after, key))
  }

  /** The true change of what the group accepts. */
  ghost function TrueGroupDirection(
      host: Host, before: Dict, after: Dict, propertyType: Json, group: seq<string>): Direction {
    TrueDirection(GroupAccepts(host, before, group, propertyType), GroupAccepts(host, after, group, propertyType),
                  HoldsIntegers(propertyType))
  }

  ghost predicate IsGroup(group: seq<string>) { group == MINIMA || group == MAXIMA }

  lemma GroupAcceptsBoth(host: Host, options: Dict, group: seq<string>, propertyType: Json, x: real)
    requires IsGroup(group)
    ensures GroupAccepts(host, options, group, propertyType)(x) <==>
      && Accepts(FormOf(group[0]), Scale(LimitOf(host, options, group[0]), propertyType), x)
      && Accepts(FormOf(group[1]), Scale(LimitOf(host, options, group[1]), propertyType), x)
  {
  }

  lemma GroupChangesOnlyAtBounds(host: Host, options: Dict, group: seq<string>, propertyType: Json, bounds: seq<Bound>)
    requires IsGroup(group)
    requires forall b :: b in GroupBounds(host, options, group, propertyType) ==> b in bounds
    ensures ChangesOnlyAt(GroupAccepts(host, options, group, propertyType), Numbers(bounds))
  {
    var accepts := GroupAccepts(host, options, group, propertyType);
    var own := GroupBounds(host, options, group, propertyType);
    assert own[0] in own && own[1] in own;
    forall x, y | SameSide(x, y, Numbers(bounds))
      ensures accepts(x) == accepts(y)
    {
      GroupAcceptsBoth(host, options, group, propertyType, x);
      GroupAcceptsBoth(host, options, group, propertyType, y);
      if own[0].Number? {
        NumbersAre(bounds, own[0].value);
      }
      if own[1].Number? {
        NumbersAre(bounds, own[1].value);
      }
    }
  }

  /** The bounds of a readable group are numbers, and the carrier contributes one. */
  lemma GroupBoundsAreNumbers(host: Host, before: Dict, after: Dict, propertyType: Json, group: seq<string>)
      returns (some: real)
    requires IsGroup(group) && Carrier(before, after, group).Some?
    requires Readable(host, before, group) && Readable(host, after, group)
    ensures var bounds := GroupBounds(host, before, group, propertyType)
      + GroupBounds(host, after, group, propertyType);
            (forall b :: b in bounds ==> b.Number? || b.Missing?) && Number(some) in bounds
  {
    var bounds1, bounds2 := GroupBounds(host, before, group, propertyType),
      GroupBounds(host, after, group, propertyType);
    var bounds := bounds1 + bounds2;
    CarrierChanged(before, after, group);
    var n :| 0 <= n < |group| && group[n] == Carrier(before, after, group).value;
    assert bounds[n] == bounds1[n] && bounds[|group| + n] == bounds2[n];
    some := if Get(after, group[n]) != Null then bounds2[n].value else bounds1[n].value;
  }

  lemma ComparedDirectionIsExact(host: Host, before: Dict, after: Dict, propertyType: Json, group: seq<string>)
    requires IsGroup(group) && Carrier(before, after, group).Some?
    requires Readable(host, before, group) && Readable(host, after, group)
    ensures ComparedDirection(host, before, after, propertyType, group)
         == Graded(TrueGroupDirection(host, before, after, propertyType, group))
  {
    var integers := HoldsIntegers(propertyType);
    var bounds1, bounds2 := GroupBounds(host, before, group, propertyType),
      GroupBounds(host, after, group, propertyType);
    var bounds := bounds1 + bounds2;
    GroupChangesOnlyAtBounds(host, before, group, propertyType, bounds);
    GroupChangesOnlyAtBounds(host, after, group, propertyType, bounds);
    var some := GroupBoundsAreNumbers(host, before, after, propertyType, group);
    NumbersHaveProbes(bounds, integers, some);
    ProbesDecideDirection(
      GroupAccepts(host, before, group, propertyType), GroupAccepts(host, after, group, propertyType), bounds,
      integers);
  }

  /** Where an inclusive bound replaces an exclusive one or the reverse, the carrier reports the true change. */
  lemma ReplacedDirectionIsExact(host: Host, before: Dict, after: Dict, propertyType: Json, key: string)
    requires IsGroup(Group(key)) && Some(key) == Carrier(before, after, Group(key))
    requires Readable(host, before, Group(key)) && Readable(host, after, Group(key))
    ensures ReplacedDirection(host, before, after, propertyType, key)
         == Graded(TrueGroupDirection(host, before, after, propertyType, Group(key)))
  {
    ComparedDirectionIsExact(host, before, after, propertyType, Group(key));
  }
}
