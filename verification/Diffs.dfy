/**
 * The diff of two normalized contracts, as a specification: what the changelog takes from the
 * diff library. Dicts are compared key by key; lists, and lists inside their items, are compared without
 * regard to the order or the repetition of items.
 */
module Diffs {
  import opened Wrappers
  import opened JsonTrees
  import opened Changelog

  /** Two lists hold the same items, as far as the diff sees. */
  ghost predicate SameItems(a: seq<Json>, b: seq<Json>)
    decreases Arr(a), 1
  {
    && (forall n :: 0 <= n < |a| ==> IsLikeOne(a[n], b))
    && (forall m :: 0 <= m < |b| ==> HasOneLike(a, b[m]))
  }

  ghost predicate IsLikeOne(v: Json, items: seq<Json>)
    decreases v, 3
  {
    exists m :: 0 <= m < |items| && !Differs(Some(v), Some(items[m]))
  }

  ghost predicate HasOneLike(items: seq<Json>, w: Json)
    decreases Arr(items), 0
  {
    exists n :: 0 <= n < |items| && !Differs(Some(items[n]), Some(w))
  }

  /** The diff sees a difference between two values, absent ones included. */
  ghost predicate Differs(before: Option<Json>, after: Option<Json>)
    decreases before.GetOr(Null), 2
  {
    match (before, after)
    case (None, None) => false
    case (Some(Obj(f)), Some(Obj(g))) => exists k :: DiffersAt(f, g, k)
    case (Some(Arr(a)), Some(Arr(b))) => !SameItems(a, b)
    case _ => before != after
  }

  ghost predicate DiffersAt(f: Dict, g: Dict, k: string)
    decreases Obj(f), 0
  {
    if k in f && k in g then Differs(Some(f[k]), Some(g[k])) else k in f || k in g
  }

  /** Nothing differs from itself. */
  lemma {:induction false} CopiesAreTheSame(v: Json)
    ensures !Differs(Some(v), Some(v))
    decreases v
  {
    if v.Obj? {
      forall k
        ensures !DiffersAt(v.fields, v.fields, k)
      {
        if k in v.fields {
          CopiesAreTheSame(v.fields[k]);
        }
      }
    } else if v.Arr? {
      forall n | 0 <= n < |v.items|
        ensures IsLikeOne(v.items[n], v.items) && HasOneLike(v.items, v.items[n])
      {
        CopiesAreTheSame(v.items[n]);
      }
    }
  }

  lemma SwappedItemsAreTheSame(v: Json, w: Json)
    ensures SameItems([v, w], [w, v])
  {
    CopiesAreTheSame(v);
    CopiesAreTheSame(w);
    var a, b := [v, w], [w, v];
    assert !Differs(Some(a[0]), Some(b[1])) && !Differs(Some(a[1]), Some(b[0]));
    assert IsLikeOne(a[0], b) && IsLikeOne(a[1], b) && HasOneLike(a, b[0]) && HasOneLike(a, b[1]);
  }

  /** The order of a list is ignored inside the items of a list, too. */
  lemma InnerOrderIsIgnored(v: Json, w: Json)
    ensures !Differs(Some(Arr([Arr([v, w])])), Some(Arr([Arr([w, v])])))
  {
    SwappedItemsAreTheSame(v, w);
    var a, b := [Arr([v, w])], [Arr([w, v])];
    assert !Differs(Some(a[0]), Some(b[0]));
    assert IsLikeOne(a[0], b) && HasOneLike(a, b[0]);
  }

  /** The two values at `segs`, which both versions hold in a dict. */
  ghost predicate BothDicts(before: Json, after: Json, segs: seq<string>) {
    && At(before, segs).Some? && At(before, segs).value.Obj?
    && At(after, segs).Some? && At(after, segs).value.Obj?
  }

  /** `it` reports the difference of the two values at its keys, which are not two lists. */
  ghost predicate Reports(it: DiffItem, before: Option<Json>, after: Option<Json>) {
    match (before, after)
    case (None, Some(v)) => it.kind == ItemAdded && it.payload == v
    case (Some(v), None) => it.kind == ItemRemoved && it.payload == v
    case (Some(v), Some(w)) => Replaces(it, v, w)
    case _ => false
  }

  predicate Replaces(it: DiffItem, v: Json, w: Json) {
    (it.kind == ValuesChanged || it.kind == TypeChanges) && it.payload == Obj(map["old_value" := v, "new_value" := w])
  }

  /** `value` stands under `keys`; positions in lists have no key. */
  ghost predicate Stands(tree: Json, keys: seq<string>, value: Json)
    decreases tree
  {
    || (keys == [] && tree == value)
    || (tree.Obj? && keys != [] && keys[0] in tree.fields && Stands(tree.fields[keys[0]], keys[1..], value))
    || (tree.Arr? && exists n :: 0 <= n < |tree.items| && Stands(tree.items[n], keys, value))
  }

  /** A list that stands under `keys` holds `value`. */
  ghost predicate Lists(tree: Json, keys: seq<string>, value: Json) {
    exists items :: Stands(tree, keys, Arr(items)) && value in items
  }

  /** `it` reports a difference between two lists: an item that came, went or changed, or something inside one. */
  ghost predicate ReportsWithin(it: DiffItem, keys: seq<string>, before: Json, after: Json) {
    match it.kind
    case ItemAdded => Stands(after, keys, it.payload)
    case IterableAdded => Lists(after, keys, it.payload)
    case ItemRemoved => Stands(before, keys, it.payload)
    case IterableRemoved => Lists(before, keys, it.payload)
    case OtherKind => false
    case _ => exists v, w :: Replaces(it, v, w) && Stands(before, keys, v) && Stands(after, keys, w)
  }

  ghost predicate BothLists(before: Json, after: Json, segs: seq<string>) {
    && At(before, segs).Some? && At(before, segs).value.Arr?
    && At(after, segs).Some? && At(after, segs).value.Arr?
  }

  /** A place where the versions part: in two dicts, at a key that is not a dict in both. */
  ghost predicate Parts(before: Json, after: Json, segs: seq<string>) {
    && segs != [] && BothDicts(before, after, segs[..|segs| - 1])
    && Differs(At(before, segs), At(after, segs)) && !BothDicts(before, after, segs)
  }

  /** `it` reports what happened where the versions part at `segs`: there, or in the two lists that stand there. */
  ghost predicate ReportsAt(it: DiffItem, before: Json, after: Json, segs: seq<string>) {
    if BothLists(before, after, segs)
    then segs <= it.segs && ReportsWithin(it, it.segs[|segs|..], At(before, segs).value, At(after, segs).value)
    else it.segs == segs && Reports(it, At(before, segs), At(after, segs))
  }

  /** The diff reports every place where the versions part, and nothing else. */
  ghost predicate IsDiff(items: seq<DiffItem>, before: Json, after: Json) {
    && (forall segs :: Parts(before, after, segs) ==> SomeReport(items, before, after, segs))
    && (forall n :: 0 <= n < |items| && items[n].kind != OtherKind ==> PartsFor(items[n], before, after))
  }

  ghost predicate SomeReport(items: seq<DiffItem>, before: Json, after: Json, segs: seq<string>) {
    exists n :: 0 <= n < |items| && ReportsAt(items[n], before, after, segs)
  }

  ghost predicate PartsFor(it: DiffItem, before: Json, after: Json) {
    exists segs :: Parts(before, after, segs) && ReportsAt(it, before, after, segs)
  }

  lemma ReportsHaveAType(it: DiffItem, before: Json, after: Json, segs: seq<string>)
    requires ReportsAt(it, before, after, segs)
    ensures TypeOf(it.kind).Some? && segs <= it.segs
  {
  }

  /** At or below any place where the diff sees a difference, some item reports one. */
  lemma {:induction false} DifferenceIsReported(items: seq<DiffItem>, before: Json, after: Json, segs: seq<string>)
      returns (n: nat, place: seq<string>)
    requires IsDiff(items, before, after) && segs != []
    requires BothDicts(before, after, segs[..|segs| - 1]) && Differs(At(before, segs), At(after, segs))
    ensures n < |items| && TypeOf(items[n].kind).Some?
    ensures segs <= place <= items[n].segs && Parts(before, after, place) && ReportsAt(items[n], before, after, place)
    ensures !BothDicts(before, after, segs) ==> place == segs
    decreases At(before, segs).GetOr(Null)
  {
    if BothDicts(before, after, segs) {
      var f, g := At(before, segs).value.fields, At(after, segs).value.fields;
      var k :| DiffersAt(f, g, k);
      OneKeyDeeper(before, after, segs, k);
      if k in f && k in g {
        n, place := DifferenceIsReported(items, before, after, segs + [k]);
      } else {
        place := segs + [k];
        assert SomeReport(items, before, after, place);
        n :| n < |items| && ReportsAt(items[n], before, after, place);
      }
    } else {
      place := segs;
      assert Parts(before, after, place) && SomeReport(items, before, after, place);
      n :| n < |items| && ReportsAt(items[n], before, after, place);
    }
    ReportsHaveAType(items[n], before, after, place);
  }

  /** What only one version holds at a key of two dicts is reported there. */
  lemma ComingOrGoingIsReported(items: seq<DiffItem>, before: Json, after: Json, segs: seq<string>, k: string)
      returns (n: nat)
    requires IsDiff(items, before, after) && BothDicts(before, after, segs)
    requires At(before, segs + [k]).Some? != At(after, segs + [k]).Some?
    ensures n < |items| && items[n].segs == segs + [k]
    ensures items[n].kind == if At(before, segs + [k]).Some? then ItemRemoved else ItemAdded
    ensures Some(items[n].payload) == if At(before, segs + [k]).Some?
      then At(before, segs + [k]) else At(after, segs + [k])
  {
    var key := segs + [k];
    assert key[..|segs|] == segs;
    assert Parts(before, after, key) && SomeReport(items, before, after, key);
    n :| n < |items| && ReportsAt(items[n], before, after, key);
  }

  lemma LoneReport(it: DiffItem, before: Json, after: Json, segs: seq<string>)
    requires ReportsAt(it, before, after, segs) && At(before, segs).Some? != At(after, segs).Some?
    ensures it.segs == segs && it.kind == if At(before, segs).Some? then ItemRemoved else ItemAdded
    ensures Some(it.payload) == if At(before, segs).Some? then At(before, segs) else At(after, segs)
  {
  }

  predicate IsScalar(v: Json) { v.Flag? || v.Num? || v.Text? }

  lemma ScalarsAreReplaced(it: DiffItem, before: Json, after: Json, place: seq<string>)
    requires Parts(before, after, place) && ReportsAt(it, before, after, place)
    requires At(before, place).Some? && IsScalar(At(before, place).value)
    requires At(after, place).Some? && IsScalar(At(after, place).value)
    ensures it.segs == place && Replaces(it, At(before, place).value, At(after, place).value)
    ensures At(before, place).value != At(after, place).value
  {
  }

  /** Two different scalars at a key of two dicts are reported there. */
  lemma ScalarChangeIsReported(items: seq<DiffItem>, before: Json, after: Json, segs: seq<string>, k: string)
      returns (n: nat)
    requires IsDiff(items, before, after) && BothDicts(before, after, segs)
    requires At(before, segs + [k]).Some? && IsScalar(At(before, segs + [k]).value)
    requires At(after, segs + [k]).Some? && IsScalar(At(after, segs + [k]).value)
    requires At(before, segs + [k]) != At(after, segs + [k])
    ensures n < |items| && items[n].segs == segs + [k]
    ensures Replaces(items[n], At(before, segs + [k]).value, At(after, segs + [k]).value)
  {
    var key := segs + [k];
    assert key[..|segs|] == segs;
    ScalarsPart(before, after, key);
    assert SomeReport(items, before, after, key);
    n :| n < |items| && ReportsAt(items[n], before, after, key);
    ScalarsAreReplaced(items[n], before, after, key);
  }

  lemma ScalarsPart(before: Json, after: Json, segs: seq<string>)
    requires segs != [] && BothDicts(before, after, segs[..|segs| - 1])
    requires At(before, segs).Some? && IsScalar(At(before, segs).value)
    requires At(after, segs).Some? && IsScalar(At(after, segs).value)
    requires At(before, segs) != At(after, segs)
    ensures Parts(before, after, segs) && !BothLists(before, after, segs)
  {
  }

  lemma OneKeyDeeper(before: Json, after: Json, segs: seq<string>, k: string)
    requires BothDicts(before, after, segs)
    ensures var f, g := At(before, segs).value.fields, At(after, segs).value.fields;
      && At(before, segs + [k]) == (if k in f then Some(f[k]) else None)
      && At(after, segs + [k]) == (if k in g then Some(g[k]) else None)
      && (segs + [k])[..|segs|] == segs && segs <= segs + [k]
  {
    AtAppend(before, segs, [k]);
    AtAppend(after, segs, [k]);
    assert [k][1..] == [];
  }

  // ---------------------------------------------------------------- Where the versions do not part

  /** Above something that both versions hold in a dict, both hold a dict. */
  lemma {:induction false} DictsAllTheWay(before: Json, after: Json, segs: seq<string>, prefix: seq<string>)
    requires BothDicts(before, after, segs) && prefix <= segs
    ensures BothDicts(before, after, prefix)
    decreases |segs|
  {
    if prefix != segs {
      var front := segs[..|segs| - 1];
      assert segs == front + [segs[|segs| - 1]];
      AtAppend(before, front, [segs[|segs| - 1]]);
      AtAppend(after, front, [segs[|segs| - 1]]);
      DictsAllTheWay(before, after, front, prefix);
    }
  }

  /** What the diff reports lies strictly below whatever both versions hold as a dict, or apart from it. */
  lemma ItemsAreBelowDicts(items: seq<DiffItem>, before: Json, after: Json, n: nat, segs: seq<string>)
    requires IsDiff(items, before, after) && n < |items| && items[n].kind != OtherKind
    requires BothDicts(before, after, segs)
    ensures !(items[n].segs <= segs)
  {
    if items[n].segs <= segs {
      assert PartsFor(items[n], before, after);
      var place :| Parts(before, after, place) && ReportsAt(items[n], before, after, place);
      ReportsHaveAType(items[n], before, after, place);
      DictsAllTheWay(before, after, segs, place);
    }
  }

  /** A difference below is a difference above. */
  lemma {:induction false} DifferenceRises(before: Json, after: Json, segs: seq<string>, prefix: seq<string>)
    requires prefix <= segs && prefix != [] && BothDicts(before, after, segs[..|segs| - 1])
    requires Differs(At(before, segs), At(after, segs))
    ensures Differs(At(before, prefix), At(after, prefix))
    decreases |segs|
  {
    if prefix != segs {
      var front, k := segs[..|segs| - 1], segs[|segs| - 1];
      assert segs == front + [k];
      OneKeyDeeper(before, after, front, k);
      assert DiffersAt(At(before, front).value.fields, At(after, front).value.fields, k);
      DictsAllTheWay(before, after, front, front[..|front| - 1]);
      DifferenceRises(before, after, front, prefix);
    }
  }

  /** Where the versions part on the way to `s`, which leads through a key of two dicts, they differ at that key. */
  lemma PartsBelowDiffer(
      before: Json, after: Json, place: seq<string>, segs: seq<string>, key: seq<string>, s: seq<string>)
    requires Parts(before, after, place) && BothDicts(before, after, segs)
    requires |key| == |segs| + 1 && segs <= key && key <= s && place <= s
    ensures Differs(At(before, key), At(after, key))
  {
    if |place| <= |segs| {
      PrefixesAreNested(s, place, segs);
      DictsAllTheWay(before, after, segs, place);
    } else {
      PrefixesAreNested(s, place, key);
      DifferenceRises(before, after, place, key);
    }
  }

  /** Nothing is reported at or below a key of two dicts where the diff sees no difference. */
  lemma NoDifferenceNoItem(items: seq<DiffItem>, before: Json, after: Json, n: nat, segs: seq<string>, k: string)
    requires IsDiff(items, before, after) && n < |items| && items[n].kind != OtherKind
    requires BothDicts(before, after, segs) && !Differs(At(before, segs + [k]), At(after, segs + [k]))
    ensures !(segs + [k] <= items[n].segs)
  {
    if segs + [k] <= items[n].segs {
      assert PartsFor(items[n], before, after);
      var place :| Parts(before, after, place) && ReportsAt(items[n], before, after, place);
      ReportsHaveAType(items[n], before, after, place);
      PartsBelowDiffer(before, after, place, segs, segs + [k], items[n].segs);
    }
  }

  lemma PrefixesAreNested<T>(s: seq<T>, a: seq<T>, b: seq<T>)
    requires a <= s && b <= s
    ensures a <= b || b <= a
  {
    if |a| <= |b| {
      assert a == b[..|a|];
    } else {
      assert b == a[..|b|];
    }
  }

  // ---------------------------------------------------------------- There is a diff

  /** Where the versions part there is something to report. */
  lemma PartIsReportable(before: Json, after: Json, segs: seq<string>) returns (it: DiffItem)
    requires Parts(before, after, segs)
    ensures ReportsAt(it, before, after, segs)
  {
    var one, two := At(before, segs), At(after, segs);
    if BothLists(before, after, segs) {
      it := ListsAreReportable(one.value, two.value, segs);
      assert it.segs[|segs|..] == [];
    } else if one.None? {
      it := DiffItem(ItemAdded, segs, two.value);
    } else if two.None? {
      it := DiffItem(ItemRemoved, segs, one.value);
    } else {
      it := DiffItem(ValuesChanged, segs, Obj(map["old_value" := one.value, "new_value" := two.value]));
    }
  }

  lemma ListsAreReportable(one: Json, two: Json, segs: seq<string>) returns (it: DiffItem)
    requires one.Arr? && two.Arr? && !SameItems(one.items, two.items)
    ensures it.segs == segs && ReportsWithin(it, [], one, two)
  {
    assert Stands(one, [], Arr(one.items)) && Stands(two, [], Arr(two.items));
    if n :| 0 <= n < |one.items| && !IsLikeOne(one.items[n], two.items) {
      it := DiffItem(IterableRemoved, segs, one.items[n]);
    } else {
      var m :| 0 <= m < |two.items| && !HasOneLike(one.items, two.items[m]);
      it := DiffItem(IterableAdded, segs, two.items[m]);
    }
  }

  /** Everything strictly below `segs` is reported, except through the keys in `todo`, and nothing else. */
  ghost predicate ReportsBelow(items: seq<DiffItem>, before: Json, after: Json, segs: seq<string>, todo: set<string>) {
    && (forall s :: segs < s && Parts(before, after, s) && s[|segs|] !in todo ==> SomeReport(items, before, after, s))
    && (forall n :: 0 <= n < |items| ==> PartsFor(items[n], before, after))
  }

  /** Everything below `segs` through `key` is reported, and nothing else. */
  ghost predicate ReportsThrough(items: seq<DiffItem>, before: Json, after: Json, segs: seq<string>, key: string) {
    && (forall s :: segs < s && Parts(before, after, s) && s[|segs|] == key ==> SomeReport(items, before, after, s))
    && (forall n :: 0 <= n < |items| ==> PartsFor(items[n], before, after))
  }

  lemma StillReported(items: seq<DiffItem>, more: seq<DiffItem>, before: Json, after: Json, s: seq<string>)
    requires SomeReport(items, before, after, s) || SomeReport(more, before, after, s)
    ensures SomeReport(items + more, before, after, s)
  {
    if n :| 0 <= n < |items| && ReportsAt(items[n], before, after, s) {
      assert (items + more)[n] == items[n];
    } else {
      var n :| 0 <= n < |more| && ReportsAt(more[n], before, after, s);
      assert (items + more)[|items| + n] == more[n];
    }
  }

  lemma ReportsTogether(
      items: seq<DiffItem>, more: seq<DiffItem>, before: Json, after: Json, segs: seq<string>, todo: set<string>,
      key: string)
    requires ReportsBelow(items, before, after, segs, todo) && ReportsThrough(more, before, after, segs, key)
    ensures ReportsBelow(items + more, before, after, segs, todo - {key})
  {
    forall s | segs < s && Parts(before, after, s) && s[|segs|] !in todo - {key}
      ensures SomeReport(items + more, before, after, s)
    {
      StillReported(items, more, before, after, s);
    }
  }

  /** Where the versions part below `segs + [key]`, both hold a dict there, or they part there already. */
  lemma PartsThroughKey(before: Json, after: Json, segs: seq<string>, key: string, s: seq<string>)
    requires segs < s && s[|segs|] == key && Parts(before, after, s)
    ensures segs + [key] <= s && (s != segs + [key] ==> BothDicts(before, after, segs + [key]))
  {
    assert s[..|segs| + 1] == segs + [key];
    if s != segs + [key] {
      assert segs + [key] <= s[..|s| - 1];
      DictsAllTheWay(before, after, s[..|s| - 1], segs + [key]);
    }
  }

  lemma PartsThroughAKey(before: Json, after: Json, segs: seq<string>, s: seq<string>)
    requires BothDicts(before, after, segs) && segs < s && Parts(before, after, s)
    ensures s[|segs|] in At(before, segs).value.fields || s[|segs|] in At(after, segs).value.fields
  {
    PartsThroughKey(before, after, segs, s[|segs|], s);
    OneKeyDeeper(before, after, segs, s[|segs|]);
  }

  lemma {:induction false} DiffOfKey(before: Json, after: Json, segs: seq<string>, key: string)
      returns (items: seq<DiffItem>)
    requires BothDicts(before, after, segs)
    ensures ReportsThrough(items, before, after, segs, key)
    decreases At(before, segs).value, 0
  {
    var place := segs + [key];
    OneKeyDeeper(before, after, segs, key);
    items := [];
    if BothDicts(before, after, place) {
      items := DiffBelow(before, after, place);
      BelowIsThrough(items, before, after, segs, key);
    } else if Differs(At(before, place), At(after, place)) {
      assert Parts(before, after, place);
      var it := PartIsReportable(before, after, place);
      items := [it];
      OnePartIsThrough(it, before, after, segs, key);
    } else {
      NoPartThrough(before, after, segs, key);
    }
  }

  lemma BelowIsThrough(items: seq<DiffItem>, before: Json, after: Json, segs: seq<string>, key: string)
    requires BothDicts(before, after, segs + [key]) && ReportsBelow(items, before, after, segs + [key], {})
    ensures ReportsThrough(items, before, after, segs, key)
  {
    var place := segs + [key];
    forall s | segs < s && Parts(before, after, s) && s[|segs|] == key
      ensures SomeReport(items, before, after, s)
    {
      PartsThroughKey(before, after, segs, key, s);
      assert s != place;
      assert place < s && s[|place|] !in {};
    }
  }

  lemma OnePartIsThrough(it: DiffItem, before: Json, after: Json, segs: seq<string>, key: string)
    requires Parts(before, after, segs + [key]) && ReportsAt(it, before, after, segs + [key])
    ensures ReportsThrough([it], before, after, segs, key)
  {
    assert [it][0] == it;
    forall s | segs < s && Parts(before, after, s) && s[|segs|] == key
      ensures SomeReport([it], before, after, s)
    {
      PartsThroughKey(before, after, segs, key, s);
    }
  }

  lemma NoPartThrough(before: Json, after: Json, segs: seq<string>, key: string)
    requires !Differs(At(before, segs + [key]), At(after, segs + [key])) && !BothDicts(before, after, segs + [key])
    ensures ReportsThrough([], before, after, segs, key)
  {
    forall s | segs < s && Parts(before, after, s)
      ensures s[|segs|] != key
    {
      if s[|segs|] == key {
        PartsThroughKey(before, after, segs, key, s);
      }
    }
  }

  lemma {:induction false} DiffBelow(before: Json, after: Json, segs: seq<string>) returns (items: seq<DiffItem>)
    requires BothDicts(before, after, segs)
    ensures ReportsBelow(items, before, after, segs, {})
    decreases At(before, segs).value, 1
  {
    items := [];
    var todo := At(before, segs).value.fields.Keys + At(after, segs).value.fields.Keys;
    forall s | segs < s && Parts(before, after, s)
      ensures s[|segs|] in todo
    {
      PartsThroughAKey(before, after, segs, s);
    }
    while todo != {}
      invariant ReportsBelow(items, before, after, segs, todo)
    {
      var key :| key in todo;
      var more := DiffOfKey(before, after, segs, key);
      ReportsTogether(items, more, before, after, segs, todo, key);
      items, todo := items + more, todo - {key};
    }
  }

  /** Any two dicts have a diff. */
  lemma DiffExists(before: Json, after: Json) returns (items: seq<DiffItem>)
    requires before.Obj? && after.Obj?
    ensures IsDiff(items, before, after)
  {
    items := DiffBelow(before, after, []);
    forall s | Parts(before, after, s)
      ensures SomeReport(items, before, after, s)
    {
      assert [] < s;
    }
  }
}
