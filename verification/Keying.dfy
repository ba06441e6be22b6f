/**
 * Keying a list of quality rules by name or position, and the lists inside each rule by theirs.
 */
module Keying {
  import opened Wrappers
  import opened JsonTrees
  import opened Decimals
  import opened Pairing
  import opened PairingConserves

  /** `d[key] = rule` on a dict in insertion order: a known key keeps its place. */
  function Put(d: seq<Keyed>, key: string, rule: Dict): seq<Keyed> {
    if d == [] then [Keyed(key, rule)]
    else if d[0].key == key then [Keyed(key, rule)] + d[1..]
    else [d[0]] + Put(d[1..], key, rule)
  }

  function PositionalKey(i: nat): string { "[" + Decimal(i) + "]" }

  function KeyOf(item: Dict, i: nat): string {
    match Get(item, "name")
    case Text(s) => if s != "" then s else PositionalKey(i)
    case _ => PositionalKey(i)
  }

  // ---------------------------------------------------------------- Lists inside a rule

  /** By which of its fields a list is keyed: custom properties by name, definitions by URL. */
  datatype NaturalKey = ByProperty | ByUrl

  function ItemKey(natural: NaturalKey, item: Dict, i: nat): string {
    match natural
    case ByProperty =>
      (match Get(item, "property") case Text(s) => s case _ => PositionalKey(i))
    case ByUrl =>
      match Get(item, "url")
      case Text(s) => if s != "" then s else IdOrPosition(item, i)
      case _ => IdOrPosition(item, i)
  }

  function IdOrPosition(item: Dict, i: nat): string {
    match Get(item, "id")
    case Text(s) => if s != "" then s else PositionalKey(i)
    case _ => PositionalKey(i)
  }

  function ItemValue(natural: NaturalKey, item: Dict): Json {
    Obj(if natural.ByProperty? then item - {"property"} else item)
  }

  ghost function ListByKey(natural: NaturalKey, items: seq<Json>): Dict {
    if items == [] then map[]
    else
      var n := |items| - 1;
      var item := Fields(items[n]);
      ListByKey(natural, items[..n])[ItemKey(natural, item, n) := ItemValue(natural, item)]
  }

  method NormalizeBy(items: seq<Json>) returns (result: Dict)
    ensures result == ListByKey(ByProperty, items)
  {
    result := map[];
    for i := 0 to |items|
      invariant result == ListByKey(ByProperty, items[..i])
    {
      assert items[..i + 1][..i] == items[..i];
      var item := Fields(items[i]);
      result := result[ItemKey(ByProperty, item, i) := Obj(item - {"property"})];
    }
    assert items[..|items|] == items;
  }

  method NormalizeAuthDefs(items: seq<Json>) returns (result: Dict)
    ensures result == ListByKey(ByUrl, items)
  {
    result := map[];
    for i := 0 to |items|
      invariant result == ListByKey(ByUrl, items[..i])
    {
      assert items[..i + 1][..i] == items[..i];
      var item := Fields(items[i]);
      result := result[ItemKey(ByUrl, item, i) := Obj(item)];
    }
    assert items[..|items|] == items;
  }

  /** `i` is the last item stored under `key`. */
  ghost predicate LastUnder(natural: NaturalKey, items: seq<Json>, key: string, i: nat) {
    && i < |items| && ItemKey(natural, Fields(items[i]), i) == key
    && forall k :: i < k < |items| ==> ItemKey(natural, Fields(items[k]), k) != key
  }

  /** A keyed list holds, under each key, the last item with that key. */
  lemma {:induction false} LastItemIsKept(natural: NaturalKey, items: seq<Json>, key: string, i: nat)
    requires LastUnder(natural, items, key, i)
    ensures key in ListByKey(natural, items) && ListByKey(natural, items)[key] == ItemValue(natural, Fields(items[i]))
  {
    var n := |items| - 1;
    if i < n {
      assert ItemKey(natural, Fields(items[n]), n) != key;
      LastItemIsKept(natural, items[..n], key, i);
    }
  }

  /** And it holds nothing else. */
  lemma {:induction false} OnlyItemsAreKept(natural: NaturalKey, items: seq<Json>, key: string) returns (i: nat)
    requires key in ListByKey(natural, items)
    ensures LastUnder(natural, items, key, i)
  {
    var n := |items| - 1;
    if ItemKey(natural, Fields(items[n]), n) == key {
      i := n;
    } else {
      i := OnlyItemsAreKept(natural, items[..n], key);
      LastUnderFront(natural, items, key, i);
    }
  }

  lemma LastUnderFront(natural: NaturalKey, items: seq<Json>, key: string, i: nat)
    requires items != [] && LastUnder(natural, items[..|items| - 1], key, i)
    requires ItemKey(natural, Fields(items[|items| - 1]), |items| - 1) != key
    ensures LastUnder(natural, items, key, i)
  {
    var n := |items| - 1;
    assert items[..n][i] == items[i];
    forall k | i < k < |items|
      ensures ItemKey(natural, Fields(items[k]), k) != key
    {
      if k < n {
        assert items[..n][k] == items[k];
      }
    }
  }

  // ---------------------------------------------------------------- The rules

  function WithList(item: Dict, field: string, keyed: Dict): Dict { item[field := Obj(keyed)] }

  ghost function ListKeyed(item: Dict, field: string, natural: NaturalKey): Dict {
    if Get(item, field).Arr? then WithList(item, field, ListByKey(natural, item[field].items)) else item
  }

  /** A rule as it is stored: without its name, its lists keyed. */
  ghost function Entry(item: Dict): Dict {
    ListKeyed(ListKeyed(item - {"name"}, "customProperties", ByProperty), "authoritativeDefinitions", ByUrl)
  }

  /** The id of a stored rule is its own, and its name is put back only by the pairing. */
  lemma EntryKeepsId(item: Dict)
    ensures Get(Entry(item), "name") == Null && Get(Entry(item), "id") == Get(item, "id")
  {
  }

  ghost function Normalized(items: seq<Dict>): seq<Keyed> {
    if items == [] then []
    else
      var n := |items| - 1;
      Put(Normalized(items[..n]), KeyOf(items[n], n), Entry(items[n]))
  }

  method NormalizeQuality(items: seq<Dict>) returns (result: seq<Keyed>)
    ensures result == Normalized(items)
  {
    result := [];
    for i := 0 to |items|
      invariant result == Normalized(items[..i])
    {
      assert items[..i + 1][..i] == items[..i];
      var entry := items[i] - {"name"};
      if Get(entry, "customProperties").Arr? {
        var keyed := NormalizeBy(entry["customProperties"].items);
        entry := WithList(entry, "customProperties", keyed);
      }
      if Get(entry, "authoritativeDefinitions").Arr? {
        var keyed := NormalizeAuthDefs(entry["authoritativeDefinitions"].items);
        entry := WithList(entry, "authoritativeDefinitions", keyed);
      }
      result := Put(result, KeyOf(items[i], i), entry);
    }
    assert items[..|items|] == items;
  }

  /** Whether a rule has a name that the pairing reads as one. */
  predicate HasName(item: Dict) {
    Get(item, "name").Text? && Get(item, "name").text != "" && !IsPositional(Get(item, "name").text)
  }

  /** No two rules share a name or an id. */
  ghost predicate Distinguishable(items: seq<Dict>) {
    && (forall i, j :: 0 <= i < j < |items| && HasName(items[i]) ==> Get(items[i], "name") != Get(items[j], "name"))
    && (forall i, j :: 0 <= i < j < |items| && Get(items[i], "id") != Null ==>
      Get(items[i], "id") != Get(items[j], "id"))
  }

  /** No two rules get the same key. */
  ghost predicate KeysDiffer(items: seq<Dict>) {
    forall i, j :: 0 <= i < j < |items| ==> KeyOf(items[i], i) != KeyOf(items[j], j)
  }

  lemma PositionsDiffer(i: nat, j: nat)
    requires i != j
    ensures PositionalKey(i) != PositionalKey(j)
  {
    var p, q := PositionalKey(i), PositionalKey(j);
    if p == q {
      assert Decimal(i) == p[1..|p| - 1] == q[1..|q| - 1] == Decimal(j);
      DecimalIsInjective(i, j);
    }
  }

  /** Distinguishable rules get different keys, unless one is named like a position. */
  lemma PlainNamesDiffer(items: seq<Dict>)
    requires Distinguishable(items)
    requires forall i :: 0 <= i < |items| && Get(items[i], "name").Text? ==> !IsPositional(Get(items[i], "name").text)
    ensures KeysDiffer(items)
  {
    forall i, j | 0 <= i < j < |items|
      ensures KeyOf(items[i], i) != KeyOf(items[j], j)
    {
      PositionsDiffer(i, j);
      PositionalKeyIsPositional(i);
      PositionalKeyIsPositional(j);
    }
  }

  lemma PositionalKeyIsPositional(i: nat)
    ensures IsPositional(PositionalKey(i))
  {
    var p := PositionalKey(i);
    forall n | 1 <= n < |p| - 1
      ensures IsDigit(p[n])
    {
      assert p[n] == Decimal(i)[n - 1];
    }
  }

  // ---------------------------------------------------------------- What keying keeps

  ghost predicate HasKey(d: seq<Keyed>, key: string) {
    exists n :: 0 <= n < |d| && d[n].key == key
  }

  lemma {:induction false} PutNewKey(d: seq<Keyed>, key: string, rule: Dict)
    requires !HasKey(d, key)
    ensures Put(d, key, rule) == d + [Keyed(key, rule)]
  {
    if d != [] {
      PutNewKey(d[1..], key, rule);
    }
  }

  /** A key that is there keeps its place and gets the new rule. */
  lemma {:induction false} PutKnownKey(d: seq<Keyed>, key: string, rule: Dict) returns (n: nat)
    requires HasKey(d, key)
    ensures n < |d| && d[n].key == key && Put(d, key, rule) == d[n := Keyed(key, rule)]
  {
    if d[0].key == key {
      n := 0;
    } else {
      n := PutKnownKey(d[1..], key, rule);
      n := n + 1;
    }
  }

  /** Keying keeps as many rules as there are exactly if their keys differ. */
  lemma {:induction false} NormalizedLosesClashes(items: seq<Dict>)
    ensures WellKeyed(Normalized(items)) && |Normalized(items)| <= |items|
    ensures |Normalized(items)| == |items| <==> KeysDiffer(items)
  {
    if items != [] {
      var n := |items| - 1;
      var front, key, rule := Normalized(items[..n]), KeyOf(items[n], n), Entry(items[n]);
      NormalizedLosesClashes(items[..n]);
      KeysDifferStep(items);
      KeysOfNormalized(items[..n], key);
      if HasKey(front, key) {
        var k := PutKnownKey(front, key, rule);
      } else {
        PutNewKey(front, key, rule);
        OneMoreKey(front, Keyed(key, rule));
      }
    }
  }

  lemma KeysDifferStep(items: seq<Dict>)
    requires items != []
    ensures var n := |items| - 1;
      KeysDiffer(items) <==> KeysDiffer(items[..n]) && !KeyedBefore(items[..n], KeyOf(items[n], n))
  {
    var n := |items| - 1;
    assert forall i :: 0 <= i < n ==> items[..n][i] == items[i];
  }

  ghost predicate KeyedBefore(items: seq<Dict>, key: string) {
    exists i :: 0 <= i < |items| && KeyOf(items[i], i) == key
  }

  lemma KeyedBeforeStep(items: seq<Dict>, key: string)
    requires items != []
    ensures var n := |items| - 1;
      KeyedBefore(items, key) <==> KeyedBefore(items[..n], key) || KeyOf(items[n], n) == key
  {
    var n := |items| - 1;
    assert forall i :: 0 <= i < n ==> items[..n][i] == items[i];
  }

  lemma {:induction false} KeysOfNormalized(items: seq<Dict>, key: string)
    ensures HasKey(Normalized(items), key) <==> KeyedBefore(items, key)
  {
    if items != [] {
      var n := |items| - 1;
      var front, last := Normalized(items[..n]), KeyOf(items[n], n);
      KeysOfNormalized(items[..n], key);
      KeyedBeforeStep(items, key);
      PutHasKey(front, last, Entry(items[n]), key);
    }
  }

  lemma PutHasKey(d: seq<Keyed>, last: string, rule: Dict, key: string)
    ensures HasKey(Put(d, last, rule), key) <==> HasKey(d, key) || last == key
  {
    var put := Put(d, last, rule);
    if HasKey(d, last) {
      var n := PutKnownKey(d, last, rule);
      assert forall k :: 0 <= k < |d| ==> put[k].key == d[k].key;
    } else {
      PutNewKey(d, last, rule);
      assert put[|d|].key == last && forall k :: 0 <= k < |d| ==> put[k] == d[k];
    }
  }

  /** Rules whose keys differ are all kept, in order, under their names or positions. */
  lemma {:induction false} NormalizedKeepsEveryRule(items: seq<Dict>)
    requires KeysDiffer(items)
    ensures |Normalized(items)| == |items|
    ensures forall i :: 0 <= i < |items| ==>
      Normalized(items)[i] == Keyed(KeyOf(items[i], i), Entry(items[i]))
  {
    if items != [] {
      var n := |items| - 1;
      KeysDifferStep(items);
      NormalizedKeepsEveryRule(items[..n]);
      KeysOfNormalized(items[..n], KeyOf(items[n], n));
      PutNewKey(Normalized(items[..n]), KeyOf(items[n], n), Entry(items[n]));
      assert forall i :: 0 <= i < n ==> items[..n][i] == items[i];
    }
  }

  lemma OneMoreKey(front: seq<Keyed>, last: Keyed)
    requires WellKeyed(front) && last.key != "" && !HasKey(front, last.key)
    ensures WellKeyed(front + [last])
  {
  }

  ghost predicate ComesFrom(items: seq<Dict>, stored: Keyed, i: nat) {
    i < |items| && stored == Keyed(KeyOf(items[i], i), Entry(items[i]))
  }

  /** Whatever is stored under a key is one of the rules. */
  lemma {:induction false} StoredIsARule(items: seq<Dict>, k: nat) returns (i: nat)
    requires k < |Normalized(items)|
    ensures ComesFrom(items, Normalized(items)[k], i)
  {
    var n := |items| - 1;
    var front, key, rule := Normalized(items[..n]), KeyOf(items[n], n), Entry(items[n]);
    i := n;
    if HasKey(front, key) {
      var at := PutKnownKey(front, key, rule);
      if k != at {
        i := StoredIsARule(items[..n], k);
      }
    } else {
      PutNewKey(front, key, rule);
      if k < |front| {
        i := StoredIsARule(items[..n], k);
      }
    }
  }

  /** A rule named like a position and the nameless rule at that position: only the latter is kept. */
  lemma NamedLikeAPositionIsLost(x: Dict, y: Dict)
    requires Get(x, "name") == Text("[1]") && Get(y, "name") == Null
    ensures Normalized([x, y]) == [Keyed("[1]", Entry(y))]
    ensures Normalized([y, x]) == [Keyed("[0]", Entry(y)), Keyed("[1]", Entry(x))]
  {
    assert Decimal(0) == "0" && Decimal(1) == "1";
    assert PositionalKey(0) == "[0]" && PositionalKey(1) == "[1]";
    TwoRules(x, y);
    TwoRules(y, x);
    assert Put([Keyed("[1]", Entry(x))], "[1]", Entry(y)) == [Keyed("[1]", Entry(y))];
    PutNewKey([Keyed("[0]", Entry(y))], "[1]", Entry(x));
  }

  lemma TwoRules(x: Dict, y: Dict)
    ensures Normalized([x, y]) == Put([Keyed(KeyOf(x, 0), Entry(x))], KeyOf(y, 1), Entry(y))
  {
    assert [x, y][..1] == [x] && [x][..0] == [];
    assert Normalized([x]) == Put(Normalized([x][..0]), KeyOf(x, 0), Entry(x)) == [Keyed(KeyOf(x, 0), Entry(x))];
  }

  // ---------------------------------------------------------------- What things are keyed by

  /** A name, a URL, or an id that is set. */
  predicate IsSetText(value: Json) { value.Text? && value.text != "" }

  /** A rule is keyed by its name, or by its position if it has none. */
  lemma RulesAreKeyed(item: Dict, i: nat)
    ensures KeyOf(item, i) == if IsSetText(Get(item, "name")) then Get(item, "name").text else "[" + Decimal(i) + "]"
  {
  }

  /** A definition is keyed by its URL, else by its id, else by its position; a custom property by its name. */
  lemma ItemsAreKeyed(item: Dict, i: nat)
    ensures ItemKey(ByUrl, item, i) ==
      if IsSetText(Get(item, "url")) then Get(item, "url").text
      else if IsSetText(Get(item, "id")) then Get(item, "id").text
      else "[" + Decimal(i) + "]"
    ensures ItemKey(ByProperty, item, i) ==
      if Get(item, "property").Text? then Get(item, "property").text else "[" + Decimal(i) + "]"
  {
  }

  /** A position is written as digits in square brackets, of which there is at least one. */
  lemma PositionsAreWritten(key: string, digits: string)
    requires key == "[" + digits + "]"
    ensures IsPositional(key) <==> digits != "" && forall n :: 0 <= n < |digits| ==> '0' <= digits[n] <= '9'
  {
    assert forall n :: 0 <= n < |digits| ==> key[n + 1] == digits[n];
    if IsPositional(key) {
      forall n | 0 <= n < |digits|
        ensures '0' <= digits[n] <= '9'
      {
        assert IsDigit(key[n + 1]);
      }
    }
  }
}
