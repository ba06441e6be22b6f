/**
 * What the rules for physical names, relationships and freshness say, compared with the data that is admitted.
 */
module NamesAndReferences {
  import opened Wrappers
  import opened JsonTrees
  import opened Breaking
  import opened Paths
  import opened Lookups
  import opened QualityRules
  import opened Rules
  import opened Requirements
  import opened DetectorTheorems

  // ---------------------------------------------------------------- Physical names

  lemma NamesCompared(one: string, two: string)
    ensures TrueChange(HasAll({one}), HasAll({two})) == if one == two then Untested else Both
  {
    if one == two {
      SameAdmitsNothingNew(HasAll({one}), HasAll({two}));
    } else {
      ApartMovesBothWays(HasAll({one}), HasAll({two}), {one}, {two});
    }
  }

  lemma OwnerOf(owner: string)
    ensures RemoveSuffix(owner + ".physicalName", ".physicalName") == owner
    ensures EndsWith(owner + ".physicalName", ".physicalName")
  {
    var path := owner + ".physicalName";
    assert path[|owner|..] == ".physicalName";
  }

  lemma DefaultsAlike(value: Option<string>, default: string)
    ensures OrElse(value, default) == OrDefault(value, default)
  {
  }

  /** A property is found under its physical name, or under its own name if it has none. */
  lemma PhysicalNameIsExact(e: ChangelogEntry, head: string, name: string)
    requires InSchema(e.path) && e.path == head + ".properties." + name + ".physicalName"
    requires forall n: nat :: |head| < n <= |head + ".properties." + name| ==>
      !IsAt(head + ".properties." + name, ".properties.", n)
    ensures PhysicalNameDirection(e) == Some(
      TrueChange(HasAll({OrDefault(e.oldValue, name)}), HasAll({OrDefault(e.newValue, name)})))
  {
    var owner := head + ".properties." + name;
    OwnerOf(owner);
    assert owner[|head|..|head| + 12] == ".properties.";
    CutLastAt(owner, ".properties.", |head|);
    assert owner[..|head|] == head && owner[|head| + 12..] == name;
    DefaultsAlike(e.oldValue, name);
    DefaultsAlike(e.newValue, name);
    NamesCompared(OrDefault(e.oldValue, name), OrDefault(e.newValue, name));
  }

  /** So is a schema. */
  lemma SchemaNameIsExact(e: ChangelogEntry, name: string)
    requires e.path == "schema." + name + ".physicalName" && !Contains("schema." + name, ".properties.")
    ensures PhysicalNameDirection(e) == Some(
      TrueChange(HasAll({OrDefault(e.oldValue, name)}), HasAll({OrDefault(e.newValue, name)})))
  {
    var owner := "schema." + name;
    OwnerOf(owner);
    assert "schema." <= e.path;
    assert CutLast(owner, ".properties.").None?;
    assert RemovePrefix(owner, "schema.") == name;
    DefaultsAlike(e.oldValue, name);
    DefaultsAlike(e.newValue, name);
    NamesCompared(OrDefault(e.oldValue, name), OrDefault(e.newValue, name));
  }

  // ---------------------------------------------------------------- Relationships

  /** A foreign key from one column to another. */
  datatype ForeignKey = ForeignKey(from: string, to: string)

  type Database = map<string, set<Json>>

  function ValuesOf(data: Database, column: string): set<Json> { if column in data then data[column] else {} }

  /** The values of the one column are among those of the other, if the key is checked. */
  function Refers(key: Option<ForeignKey>): Database -> bool {
    data => key.Some? ==> ValuesOf(data, key.value.from) <= ValuesOf(data, key.value.to)
  }

  /** Data that meets the one key and not the other. */
  lemma TellsApart(one: ForeignKey, two: ForeignKey) returns (data: Database)
    requires one.from != one.to && two.from != two.to && one != two
    ensures Refers(Some(one))(data) && !Refers(Some(two))(data)
  {
    data := if one.from == two.from then map[two.from := {Null}, one.to := {Null}] else map[two.from := {Null}];
    assert Null in ValuesOf(data, two.from) && Null !in ValuesOf(data, two.to);
  }

  lemma KeysAreCompared(old': Option<ForeignKey>, new': Option<ForeignKey>)
    requires (old'.Some? ==> old'.value.from != old'.value.to) && (new'.Some? ==> new'.value.from != new'.value.to)
    ensures TrueChange(Refers(old'), Refers(new')) ==
      if old' == new' then Untested else if old'.None? then Tightens else if new'.None? then Loosens else Both
  {
    if old' == new' {
      SameAdmitsNothingNew(Refers(old'), Refers(new'));
    } else if old'.None? {
      var data := Broken(new'.value);
      ComingTightens(Refers(old'), Refers(new'), data);
    } else if new'.None? {
      var data := Broken(old'.value);
      ComingTightens(Refers(new'), Refers(old'), data);
    } else {
      var lost := TellsApart(old'.value, new'.value);
      var gained := TellsApart(new'.value, old'.value);
      ApartMovesBothWays(Refers(old'), Refers(new'), lost, gained);
    }
  }

  lemma Broken(key: ForeignKey) returns (data: Database)
    requires key.from != key.to
    ensures !Refers(Some(key))(data)
  {
    data := map[key.from := {Null}];
    assert Null in ValuesOf(data, key.from) && Null !in ValuesOf(data, key.to);
  }

  /** A relationship is checked if its type, which defaults to that, is a foreign key. */
  function Checked(type': Option<string>, key: ForeignKey): Option<ForeignKey> {
    if OrDefault(type', "foreignKey") == "foreignKey" then Some(key) else None
  }

  /** The direction of a changed type is that of the data that meets the key while it is checked. */
  lemma RelationshipTypeIsExact(e: ChangelogEntry, relationship: Json, key: ForeignKey)
    requires key.from != key.to
    ensures FieldDirection(e, relationship, "type")
      == Graded(TrueChange(Refers(Checked(e.oldValue, key)), Refers(Checked(e.newValue, key))))
  {
    DefaultsAlike(e.oldValue, "foreignKey");
    DefaultsAlike(e.newValue, "foreignKey");
    KeysAreCompared(Checked(e.oldValue, key), Checked(e.newValue, key));
  }

  /** The type of a relationship as it stands in the contract. */
  function TypeOf(relationship: Dict): Option<string> {
    match Get(relationship, "type")
    case Text(s) => Some(s)
    case _ => None
  }

  predicate IsTyped(relationship: Dict) { Get(relationship, "type") == Null || Get(relationship, "type").Text? }

  /** A whole relationship that comes or goes. */
  lemma WholeRelationshipIsExact(e: ChangelogEntry, relationship: Dict, key: ForeignKey)
    requires key.from != key.to && IsTyped(relationship) && !e.kind.Updated?
    ensures FieldDirection(e, Obj(relationship), "") == Graded(
      if e.kind.Added? then TrueChange(Refers(None), Refers(Checked(TypeOf(relationship), key)))
      else TrueChange(Refers(Checked(TypeOf(relationship), key)), Refers(None)))
  {
    KeysAreCompared(None, Checked(TypeOf(relationship), key));
    KeysAreCompared(Checked(TypeOf(relationship), key), None);
  }

  /** A changed end of a relationship, or of a list of its ends. */
  lemma MovedRelationshipIsExact(
      e: ChangelogEntry, relationship: Dict, field: string, old': ForeignKey, new': ForeignKey)
    requires old'.from != old'.to && new'.from != new'.to && old' != new' && IsTyped(relationship)
    requires BeforeFirst(field, ".") == "from" || BeforeFirst(field, ".") == "to"
    ensures FieldDirection(e, Obj(relationship), field) == Graded(
      TrueChange(Refers(Checked(TypeOf(relationship), old')), Refers(Checked(TypeOf(relationship), new'))))
  {
    EndsAreNoTypes(field);
    KeysAreCompared(Checked(TypeOf(relationship), old'), Checked(TypeOf(relationship), new'));
  }

  lemma EndsAreNoTypes(field: string)
    requires BeforeFirst(field, ".") == "from" || BeforeFirst(field, ".") == "to"
    ensures field != "type" && field != ""
  {
    BeforeNoDot("type");
  }

  /** No key of more than `n` characters is, or contains, `rest`. */
  ghost predicate NoLongerKey(rest: string, keys: set<string>, n: nat) {
    forall k :: n < k <= |rest| ==> !(rest[..k] in keys && (k == |rest| || rest[k] == '.'))
  }

  lemma {:induction false} LongestKeyIs(rest: string, keys: set<string>, key: string, n: nat)
    requires key in keys && |key| <= n <= |rest| && rest[..|key|] == key && (|key| == |rest| || rest[|key|] == '.')
    requires NoLongerKey(rest, keys, |key|)
    ensures LongestKey(rest, keys, n) == Some(key)
  {
    if n > |key| {
      LongestKeyIs(rest, keys, key, n - 1);
    }
  }

  /** The relationships of two versions, of which the second one counts. */
  ghost predicate Holds(before: Json, after: Json, container: string, f: Dict, g: Dict) {
    Lookup(before, container) == Obj(f) && Lookup(after, container) == Obj(g)
  }

  /** An entry is read as one of the longest key that fits, in the second version if it has the key. */
  lemma RelationshipIsRead(
      e: ChangelogEntry, before: Json, after: Json, owner: string, rest: string, f: Dict, g: Dict, key: string)
    requires InSchema(e.path) && CutLast(e.path, ".relationships.") == Some((owner, rest))
    requires Holds(before, after, owner + ".relationships", f, g) && (key in f || key in g)
    requires |key| <= |rest| && rest[..|key|] == key && (|key| == |rest| || rest[|key|] == '.')
    requires NoLongerKey(rest, f.Keys + g.Keys, |key|)
    ensures RelationshipDirection(e, before, after) ==
      Some(FieldDirection(e, if key in g then g[key] else f[key], if |key| == |rest| then "" else rest[|key| + 1..]))
  {
    assert (f + g).Keys == f.Keys + g.Keys;
    LongestKeyIs(rest, (f + g).Keys, key, |rest|);
  }

  // ---------------------------------------------------------------- Freshness

  /** What is fresh enough; any age, if freshness is not checked. */
  function Fresh(limit: Option<real>): real -> bool { age => limit.Some? ==> age < limit.value }

  lemma LimitsOfAge(old': Option<real>, new': Option<real>)
    ensures TrueChange(Fresh(old'), Fresh(new')) ==
      if old' == new' then Untested
      else if old'.None? || (new'.Some? && new'.value < old'.value) then Tightens
      else Loosens
  {
    if old' == new' {
      SameAdmitsNothingNew(Fresh(old'), Fresh(new'));
    } else if old'.None? {
      assert !Fresh(new')(new'.value);
      ComingTightens(Fresh(old'), Fresh(new'), new'.value);
    } else if new'.None? {
      assert !Fresh(old')(old'.value);
      ComingTightens(Fresh(new'), Fresh(old'), old'.value);
    } else if new'.value < old'.value {
      assert Fresh(old')(new'.value) && !Fresh(new')(new'.value);
    } else {
      assert Fresh(new')(old'.value) && !Fresh(old')(old'.value);
    }
  }

  /** The freshness that a contract asks for: a duration, if it has a value and an element that names a field. */
  ghost predicate AsksFor(host: Host, tree: Json, limit: Option<real>) {
    var sla := Fields(Lookup(tree, FRESHNESS));
    && !FreshnessRaises(host, Lookup(tree, FRESHNESS), tree)
    && (limit.Some? <==> IsFreshnessChecked(host, sla, tree))
    && (limit.Some? ==> host.seconds(Get(sla, "value"), Get(sla, "unit")) == Seconds(limit.value))
  }

  /** The path of the freshness, or of one of its fields. */
  predicate IsFreshness(path: string) {
    var segments := Split(path);
    |segments| >= 2 && segments[0] == "slaProperties" && segments[1] == "freshness"
  }

  /**
   * Freshness that comes or goes, by whatever field, and freshness whose value or unit moves: the direction is
   * that of the ages that are fresh enough.
   */
  lemma FreshnessChangeIsExact(
      host: Host, e: ChangelogEntry, before: Json, after: Json, old': Option<real>, new': Option<real>)
    requires IsFreshness(e.path) && AsksFor(host, before, old') && AsksFor(host, after, new')
    requires old'.Some? && new'.Some? ==> IsFreshnessLimit(e.path)
    ensures FreshnessDirection(host, e, before, after) == Some(Graded(TrueChange(Fresh(old'), Fresh(new'))))
  {
    LimitsOfAge(old', new');
  }

  /** The ages of the columns that freshness may be asked of. */
  function FreshAt(element: string, limit: real): map<string, real> -> bool {
    ages => element in ages ==> ages[element] < limit
  }

  /** Freshness that moves to another column: what was fresh may be old there, and the other way round. */
  lemma MovedFreshnessIsExact(
      host: Host, e: ChangelogEntry, before: Json, after: Json, old': real, new': real, one: string, two: string)
    requires Split(e.path) == ["slaProperties", "freshness", "element"] && one != two
    requires AsksFor(host, before, Some(old')) && AsksFor(host, after, Some(new'))
    ensures FreshnessDirection(host, e, before, after)
      == Some(Graded(TrueChange(FreshAt(one, old'), FreshAt(two, new'))))
  {
    ApartMovesBothWays(FreshAt(one, old'), FreshAt(two, new'), map[two := new'], map[one := old']);
  }

  /** A duration that cannot be compared leaves the direction open. */
  lemma UnreadDurationsAreOpen(host: Host, oldSla: Dict, newSla: Dict, field: string)
    requires field == "value" || field == "unit"
    requires !host.seconds(Get(oldSla, "value"), Get(oldSla, "unit")).BadDuration?
    requires !host.seconds(Get(newSla, "value"), Get(newSla, "unit")).BadDuration?
    requires host.seconds(Get(oldSla, "value"), Get(oldSla, "unit")).NoDuration?
      || host.seconds(Get(newSla, "value"), Get(newSla, "unit")).NoDuration?
    ensures SlaDirection(host, oldSla, newSla, true, true, field) == Graded(Undetermined)
  {
  }

  lemma {:induction false} DotsOf(a: string, b: string)
    ensures CountDots(a + b) == CountDots(a) + CountDots(b)
  {
    if a == "" {
      assert a + b == b;
    } else {
      assert (a + b)[1..] == a[1..] + b;
      DotsOf(a[1..], b);
    }
  }

  lemma {:induction false} DotsIn(s: string)
    ensures CountDots(s) == 0 <==> NoDot(s)
  {
    if s != "" {
      DotsIn(s[1..]);
      assert NoDot(s) <==> s[0] != '.' && NoDot(s[1..]);
    }
  }

  /** Freshness is asked of an element that reads `model.field`, with one dot, of a model of the contract. */
  lemma ElementsAreRead(host: Host, sla: Dict, tree: Json, model: string, field: string)
    requires Get(sla, "value") != Null && Truthy(Get(sla, "element")) && NoDot(model)
    requires host.str(Get(sla, "element")) == model + "." + field
    requires Get(Fields(tree), "schema").Obj?
    ensures IsFreshnessChecked(host, sla, tree) <==> NoDot(field) && model in Get(Fields(tree), "schema").fields
  {
    DotsOf(model + ".", field);
    DotsOf(model, ".");
    assert CountDots(".") == 1 + CountDots("");
    DotsIn(model);
    DotsIn(field);
    SplitAppend(model, field);
    SplitNoDot(model);
  }

  /** Without a value or an element nothing is asked. */
  lemma NothingIsAsked(host: Host, sla: Dict, tree: Json)
    requires Get(sla, "value") == Null || !Truthy(Get(sla, "element"))
    ensures !IsFreshnessChecked(host, sla, tree)
  {
  }

  /** A name is looked for among the keys of a dict, the items of a list, or the parts of a text. */
  lemma NamesAreLookedFor(name: string, fields: Dict, items: seq<Json>, text: string)
    ensures Mentions(Obj(fields), name) <==> name in fields
    ensures Mentions(Arr(items), name) <==> Text(name) in items
    ensures Mentions(Text(text), name) <==> text != "" && exists n: nat :: n <= |text| && IsAt(text, name, n)
    ensures !Mentions(Null, name)
  {
  }
}
