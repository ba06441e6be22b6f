/**
 * What the limits on values, lengths and items mean: the numbers that each of them admits, by its name, and
 * that the direction of a limit that comes, goes or moves is that of the numbers it admits.
 */
module LimitMeanings {
  import opened Wrappers
  import opened JsonTrees
  import opened Breaking
  import opened NumberProbes
  import opened QualityRules
  import opened BoundRules
  import opened Requirements
  import BoundGroups

  /** Which numbers a limit admits: of values, of characters, or of items. */
  predicate AdmitsNumber(key: string, limit: real, x: real) {
    || ((key == "minimum" || key == "minLength" || key == "minItems") && x >= limit)
    || (key == "exclusiveMinimum" && x > limit)
    || ((key == "maximum" || key == "maxLength" || key == "maxItems") && x <= limit)
    || (key == "exclusiveMaximum" && x < limit)
  }

  predicate IsLower(key: string) {
    key == "minimum" || key == "minLength" || key == "minItems" || key == "exclusiveMinimum"
  }

  predicate IsUpper(key: string) {
    key == "maximum" || key == "maxLength" || key == "maxItems" || key == "exclusiveMaximum"
  }

  /** The numbers that are admitted, all of them without a limit. */
  function Admitted(key: string, limit: Option<real>): real -> bool {
    x => limit.Some? ==> AdmitsNumber(key, limit.value, x)
  }

  /** The true change of what one limit admits. */
  lemma LimitsCompared(key: string, old': Option<real>, new': Option<real>)
    requires IsLower(key) || IsUpper(key)
    ensures TrueChange(Admitted(key, old'), Admitted(key, new')) ==
      if old' == new' then Untested
      else if old'.None? then Tightens
      else if new'.None? then Loosens
      else if IsLower(key) == (new'.value > old'.value) then Tightens else Loosens
  {
    var before, after := Admitted(key, old'), Admitted(key, new');
    if old' == new' {
      SameAdmitsNothingNew(before, after);
    } else if old'.None? {
      ComingTightens(before, after, Outside(key, new'.value));
    } else if new'.None? {
      ComingTightens(after, before, Outside(key, old'.value));
    } else {
      MovedLimit(key, old'.value, new'.value);
    }
  }

  /** A number that a limit does not admit. */
  function Outside(key: string, limit: real): (x: real)
    requires IsLower(key) || IsUpper(key)
    ensures !AdmitsNumber(key, limit, x)
  {
    if IsLower(key) then limit - 1.0 else limit + 1.0
  }

  lemma MovedLimit(key: string, old': real, new': real)
    requires (IsLower(key) || IsUpper(key)) && old' != new'
    ensures TrueChange(Admitted(key, Some(old')), Admitted(key, Some(new')))
      == if IsLower(key) == (new' > old') then Tightens else Loosens
  {
    var middle := (old' + new') / 2.0;
    var before, after := Admitted(key, Some(old')), Admitted(key, Some(new'));
    assert before(middle) == (IsLower(key) == (new' > old'));
    assert after(middle) == !before(middle);
  }

  /** The limit of a version, as the entry shows it. */
  ghost predicate Shows(host: Host, text: Option<string>, limit: Option<real>) {
    match limit
    case None => text.None?
    case Some(v) => text.Some? && host.number(text.value) == Reads(v)
  }

  /** How a limit that is shown in two versions changed. */
  predicate IsChangeOf(kind: ChangeType, old': Option<real>, new': Option<real>) {
    match kind
    case Added => old'.None? && new'.Some?
    case Removed => old'.Some? && new'.None?
    case Updated => old'.Some? && new'.Some?
  }

  /** A limit without a partner, or one that moves, is graded with the true change of the numbers it admits. */
  lemma LimitIsExact(
      host: Host, before: Dict, after: Dict, propertyType: Json, key: string, kind: ChangeType,
      oldValue: Option<string>, newValue: Option<string>, old': Option<real>, new': Option<real>)
    requires (IsLower(key) || IsUpper(key)) && IsChangeOf(kind, old', new')
    requires Shows(host, oldValue, old') && Shows(host, newValue, new')
    requires kind.Updated? || !PartnerSet(key, Group(key), before, after)
    ensures BoundDirection(host, before, after, propertyType, key, kind, oldValue, newValue)
         == Graded(TrueChange(Admitted(key, old'), Admitted(key, new')))
  {
    LimitsCompared(key, old', new');
  }

  /** A pattern that comes or goes: some text does not match it. */
  lemma PatternIsExact(
      host: Host, before: Dict, after: Dict, propertyType: Json, kind: ChangeType, oldValue: Option<string>,
      newValue: Option<string>, matches: string -> bool, text: string)
    requires !kind.Updated? && !matches(text)
    ensures BoundDirection(host, before, after, propertyType, "pattern", kind, oldValue, newValue) == Graded(
      if kind.Added? then TrueChange(AnyText(), matches) else TrueChange(matches, AnyText()))
  {
    ComingTightens(AnyText(), matches, text);
  }

  function AnyText(): string -> bool { text => true }

  /** What cannot be compared is left open: a pattern for another, and limits that do not read as numbers. */
  lemma UnreadLimitsAreOpen(
      host: Host, before: Dict, after: Dict, propertyType: Json, key: string, oldValue: Option<string>,
      newValue: Option<string>)
    requires key == "pattern" || Parse(host, oldValue).Unread? || Parse(host, newValue).Unread?
    ensures BoundDirection(host, before, after, propertyType, key, Updated, oldValue, newValue) == Graded(Undetermined)
  {
  }

  /** So are a bound and its partner, at the one that carries the change. */
  lemma UnreadPartnersAreOpen(host: Host, before: Dict, after: Dict, propertyType: Json, key: string, kind: ChangeType)
    requires !kind.Updated? && PartnerSet(key, Group(key), before, after)
    requires Some(key) == Carrier(before, after, Group(key))
    requires SomeUnreadable(host, before, Group(key)) || SomeUnreadable(host, after, Group(key))
    ensures BoundDirection(host, before, after, propertyType, key, kind, None, None) == Graded(Undetermined)
  {
  }

  // ---------------------------------------------------------------- Groups of bounds

  /** The number of a bound, if it is set to one. */
  ghost predicate HasBound(host: Host, options: Dict, key: string, limit: Option<real>) {
    match limit
    case None => Get(options, key) == Null
    case Some(v) => Get(options, key) != Null && host.number(host.str(Get(options, key))) == Reads(v)
  }

  /** The numbers of a property: the days of a date, as the seconds that bounds are read in. */
  function InSeconds(propertyType: Json, x: real): real {
    if propertyType == Text("date") then x * 86400.0 else x
  }

  /** A group admits what its inclusive and its exclusive bound admit; those of a date are midnights. */
  lemma GroupMeans(
      host: Host, options: Dict, propertyType: Json, inclusive: string, exclusive: string,
      one: Option<real>, two: Option<real>, x: real)
    requires (inclusive == "minimum" && exclusive == "exclusiveMinimum")
      || (inclusive == "maximum" && exclusive == "exclusiveMaximum")
    requires HasBound(host, options, inclusive, one) && HasBound(host, options, exclusive, two)
    ensures Group(inclusive) == Group(exclusive) == [inclusive, exclusive]
    ensures GroupAccepts(host, options, [inclusive, exclusive], propertyType)(x) <==>
      && Admitted(inclusive, one)(InSeconds(propertyType, x)) && Admitted(exclusive, two)(InSeconds(propertyType, x))
  {
    var group := [inclusive, exclusive];
    assert IsGroup(group);
    GroupAcceptsBoth(host, options, group, propertyType, x);
    BoundMeans(host, options, propertyType, inclusive, one, x);
    BoundMeans(host, options, propertyType, exclusive, two, x);
  }

  lemma BoundMeans(host: Host, options: Dict, propertyType: Json, key: string, limit: Option<real>, x: real)
    requires key in ["minimum", "exclusiveMinimum", "maximum", "exclusiveMaximum"]
    requires HasBound(host, options, key, limit)
    ensures Accepts(FormOf(key), Scale(LimitOf(host, options, key), propertyType), x)
      <==> Admitted(key, limit)(InSeconds(propertyType, x))
  {
    if limit.Some? {
      BoundGroups.ScaledAccepts(FormOf(key), limit.value, propertyType, x);
    }
  }

  /** Integers and dates hold whole numbers, and nothing else does. */
  lemma WholeNumbers(propertyType: Json)
    ensures HoldsIntegers(propertyType) <==> propertyType == Text("integer") || propertyType == Text("date")
  {
  }

  /**
   * A date from day n on is a date after day n - 1: an inclusive bound that is replaced by that exclusive one
   * is untested, although it loosens for a number.
   */
  lemma DayBefore(host: Host, before: Dict, after: Dict, day: int)
    requires HasBound(host, before, "minimum", Some(day as real * 86400.0))
    requires HasBound(host, before, "exclusiveMinimum", None) && HasBound(host, after, "minimum", None)
    requires HasBound(host, after, "exclusiveMinimum", Some((day - 1) as real * 86400.0))
    ensures ReplacedDirection(host, before, after, Text("date"), "exclusiveMinimum") == Graded(Untested)
    ensures ReplacedDirection(host, before, after, Text("number"), "exclusiveMinimum") == Graded(Loosens)
  {
    var group := MINIMA;
    CarrierIsExclusive(before, after);
    ReplacedDirectionIsExact(host, before, after, Text("date"), "exclusiveMinimum");
    ReplacedDirectionIsExact(host, before, after, Text("number"), "exclusiveMinimum");
    SameDays(host, before, after, day);
    MoreNumbers(host, before, after, day);
  }

  lemma CarrierIsExclusive(before: Dict, after: Dict)
    requires Get(before, "minimum") != Null && Get(before, "exclusiveMinimum") == Null
    requires Get(after, "minimum") == Null && Get(after, "exclusiveMinimum") != Null
    ensures Carrier(before, after, MINIMA) == Some("exclusiveMinimum")
  {
    var rest := MINIMA[1..];
    assert rest == ["exclusiveMinimum"] && rest[1..] == [];
    assert Changed(before, after, rest) == ["exclusiveMinimum"];
    assert Changed(before, after, MINIMA) == ["minimum", "exclusiveMinimum"];
    assert ["minimum", "exclusiveMinimum"][1..] == ["exclusiveMinimum"];
    assert FirstSet(after, ["exclusiveMinimum"]) == Some("exclusiveMinimum");
  }

  lemma SameDays(host: Host, before: Dict, after: Dict, day: int)
    requires HasBound(host, before, "minimum", Some(day as real * 86400.0))
    requires HasBound(host, before, "exclusiveMinimum", None) && HasBound(host, after, "minimum", None)
    requires HasBound(host, after, "exclusiveMinimum", Some((day - 1) as real * 86400.0))
    ensures TrueGroupDirection(host, before, after, Text("date"), MINIMA) == Untested
  {
    var one, two := GroupAccepts(host, before, MINIMA, Text("date")), GroupAccepts(host, after, MINIMA, Text("date"));
    forall x | InDomain(x, true)
      ensures one(x) <==> two(x)
    {
      FromADayOn(host, before, day as real, x);
      AfterADay(host, after, (day - 1) as real, x);
      WholeDays(x.Floor, day);
    }
  }

  lemma FromADayOn(host: Host, options: Dict, day: real, x: real)
    requires HasBound(host, options, "minimum", Some(day * 86400.0))
    requires HasBound(host, options, "exclusiveMinimum", None)
    ensures GroupAccepts(host, options, MINIMA, Text("date"))(x) <==> x >= day
  {
    GroupMeans(host, options, Text("date"), "minimum", "exclusiveMinimum", Some(day * 86400.0), None, x);
    InOrder(x, day);
  }

  lemma AfterADay(host: Host, options: Dict, day: real, x: real)
    requires HasBound(host, options, "minimum", None)
    requires HasBound(host, options, "exclusiveMinimum", Some(day * 86400.0))
    ensures GroupAccepts(host, options, MINIMA, Text("date"))(x) <==> x > day
  {
    GroupMeans(host, options, Text("date"), "minimum", "exclusiveMinimum", None, Some(day * 86400.0), x);
    InOrder(x, day);
  }

  lemma InOrder(x: real, y: real)
    ensures x * 86400.0 >= y * 86400.0 <==> x >= y
    ensures x * 86400.0 > y * 86400.0 <==> x > y
  {
  }

  lemma WholeDays(x: int, day: int)
    ensures x as real >= day as real <==> x as real > (day - 1) as real
  {
    var before := day - 1;
    if x >= day {
      assert x as real >= day as real && x as real > before as real;
    } else {
      assert x as real <= before as real && before as real < day as real;
    }
  }

  lemma MoreNumbers(host: Host, before: Dict, after: Dict, day: int)
    requires HasBound(host, before, "minimum", Some(day as real * 86400.0))
    requires HasBound(host, before, "exclusiveMinimum", None) && HasBound(host, after, "minimum", None)
    requires HasBound(host, after, "exclusiveMinimum", Some((day - 1) as real * 86400.0))
    ensures TrueGroupDirection(host, before, after, Text("number"), MINIMA) == Loosens
  {
    var one := GroupAccepts(host, before, MINIMA, Text("number"));
    var two := GroupAccepts(host, after, MINIMA, Text("number"));
    forall x
      ensures one(x) <==> x >= day as real * 86400.0
      ensures two(x) <==> x > (day - 1) as real * 86400.0
    {
      GroupMeans(
        host, before, Text("number"), "minimum", "exclusiveMinimum", Some(day as real * 86400.0), None, x);
      GroupMeans(
        host, after, Text("number"), "minimum", "exclusiveMinimum", None, Some((day - 1) as real * 86400.0), x);
    }
    var between := day as real * 86400.0 - 1.0;
    assert (day - 1) as real == day as real - 1.0;
    LessIsTightening(two, one, false, between);
  }

  // ---------------------------------------------------------------- Limits without bound

  /** A limit that moves to infinity, or back, and one that is no number, which compares with nothing. */
  lemma InfiniteLimitsMove(key: string, v: real)
    requires IsLower(key) || IsUpper(key)
    ensures MovedDirection(key, Reads(v), Infinite(true)) == if IsLower(key) then Tightens else Loosens
    ensures MovedDirection(key, Infinite(true), Reads(v)) == if IsLower(key) then Loosens else Tightens
    ensures MovedDirection(key, Reads(v), Infinite(false)) == if IsLower(key) then Loosens else Tightens
    ensures MovedDirection(key, Infinite(false), Infinite(true)) == if IsLower(key) then Tightens else Loosens
    ensures MovedDirection(key, Infinite(true), Infinite(true)) == Untested
    ensures MovedDirection(key, NotANumber, NotANumber) == MovedDirection(key, Reads(v), NotANumber) == Loosens
  {
  }

  /** An infinite limit is not unread: at the carrier it raises over integers, and is compared over the reals. */
  lemma InfinitePartners(
      host: Host, before: Dict, after: Dict, propertyType: Json, inclusive: string, exclusive: string, v: real)
    requires (inclusive == "minimum" && exclusive == "exclusiveMinimum")
      || (inclusive == "maximum" && exclusive == "exclusiveMaximum")
    requires HasBound(host, before, inclusive, Some(v)) && HasBound(host, before, exclusive, None)
    requires HasBound(host, after, inclusive, None) && Get(after, exclusive) != Null
    requires host.number(host.str(Get(after, exclusive))).Infinite?
    requires Carrier(before, after, [inclusive, exclusive]) == Some(exclusive)
    ensures ReplacedDirection(host, before, after, propertyType, exclusive) ==
      if propertyType == Text("integer") || propertyType == Text("date") then Raises
      else Graded(host.unbounded(before, after, exclusive))
  {
    var group := [inclusive, exclusive];
    assert Group(exclusive) == group;
    assert group[0] == inclusive && group[1] == exclusive;
    assert LimitOf(host, after, group[1]).Unbounded?;
  }
}
