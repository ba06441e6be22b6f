/**
 * Where the entries of a changelog stand in the two contracts, key by key. A path is text, and names
 * may contain dots; along well-named places the text says the same as the keys.
 */
module Places {
  import opened Wrappers
  import opened JsonTrees
  import opened Paths
  import opened Changelog
  import opened DetectorTheorems
  import opened SummaryTheorems
  import opened Diffs

  // ---------------------------------------------------------------- Paths and keys

  /** Two places part at a name and another one that continues it after a dot. */
  ghost predicate DottedAt(x: seq<string>, y: seq<string>, c: nat) {
    c < |x| && c < |y| && x[..c] == y[..c] && x[c] + "." <= y[c]
  }

  ghost predicate Dotted(x: seq<string>, y: seq<string>) {
    exists c: nat :: DottedAt(x, y, c)
  }

  lemma DottedBelow(x: seq<string>, y: seq<string>)
    requires x != [] && y != [] && x[0] == y[0] && Dotted(x[1..], y[1..])
    ensures Dotted(x, y)
  {
    var c: nat :| DottedAt(x[1..], y[1..], c);
    assert x[..c + 1] == [x[0]] + x[1..][..c] && y[..c + 1] == [y[0]] + y[1..][..c];
    assert DottedAt(x, y, c + 1);
  }

  lemma JoinCons(x: seq<string>)
    requires |x| > 1
    ensures Join(x) == x[0] + "." + Join(x[1..])
  {
  }

  /** At or inside a path, there is a place at or below its keys, or one that parts from them at a dotted name. */
  lemma {:induction false} PathsFollowKeys(x: seq<string>, y: seq<string>)
    requires x != [] && y != [] && AtOrInside(Join(x), Join(y)) && !Dotted(x, y) && !Dotted(y, x)
    ensures y <= x
    decreases |x|
  {
    HeadsAgreeOrPart(x, y);
    if |y| > 1 {
      SameHeadTail(x, y);
      if Dotted(x[1..], y[1..]) {
        DottedBelow(x, y);
      }
      if Dotted(y[1..], x[1..]) {
        DottedBelow(y, x);
      }
      PathsFollowKeys(x[1..], y[1..]);
      assert x == [x[0]] + x[1..] && y == [y[0]] + y[1..];
    }
  }

  /** What lies around a place below `path` is a place above or below `path`, if they do not part at a dotted name. */
  lemma {:induction false} PathsMeet(x: seq<string>, y: seq<string>, path: seq<string>)
    requires x != [] && y != [] && path <= x && AtOrInside(Join(x), Join(y)) && !Dotted(path, y) && !Dotted(y, path)
    ensures y <= path || path <= y
    decreases |x|, 1
  {
    if path != [] {
      HeadsAgreeOrPart(x, y);
      assert path[0] == x[0];
      assert !DottedAt(path, y, 0) && !DottedAt(y, path, 0);
      if |y| > 1 {
        SameHeadTail(x, y);
        if path[1..] != [] {
          TailsMeet(x, y, path);
        }
      }
      assert path == [path[0]] + path[1..] && y == [y[0]] + y[1..];
    }
  }

  lemma {:induction false} TailsMeet(x: seq<string>, y: seq<string>, path: seq<string>)
    requires |x| > 1 && |y| > 1 && |path| > 1 && path <= x && path[0] == y[0]
    requires AtOrInside(Join(x[1..]), Join(y[1..])) && !Dotted(path, y) && !Dotted(y, path)
    ensures y[1..] <= path[1..] || path[1..] <= y[1..]
    decreases |x|, 0
  {
    if Dotted(path[1..], y[1..]) {
      DottedBelow(path, y);
    }
    if Dotted(y[1..], path[1..]) {
      DottedBelow(y, path);
    }
    PathsMeet(x[1..], y[1..], path[1..]);
  }

  lemma Continues(p: string, a: string, b: string)
    requires a <= p && b <= p && |a| < |b| && p[|a|] == '.'
    ensures a + "." <= b
  {
    assert b == p[..|b|] && b[..|a| + 1] == p[..|a| + 1] == a + ".";
  }

  lemma HeadsAgreeOrPart(x: seq<string>, y: seq<string>)
    requires x != [] && y != [] && AtOrInside(Join(x), Join(y))
    ensures x[0] == y[0] || DottedAt(x, y, 0) || DottedAt(y, x, 0)
  {
    var p, q := Join(x), Join(y);
    if |x| > 1 {
      JoinCons(x);
    }
    if |y| > 1 {
      JoinCons(y);
    }
    if |x[0]| < |y[0]| {
      Continues(p, x[0], y[0]);
    } else if |y[0]| < |x[0]| {
      Continues(p, y[0], x[0]);
    } else {
      assert x[0] == p[..|x[0]|] && y[0] == p[..|y[0]|];
    }
  }

  lemma SameHeadTail(x: seq<string>, y: seq<string>)
    requires x != [] && |y| > 1 && x[0] == y[0] && AtOrInside(Join(x), Join(y))
    ensures |x| > 1 && AtOrInside(Join(x[1..]), Join(y[1..]))
  {
    JoinCons(y);
    if |x| > 1 {
      JoinCons(x);
      var n := |x[0]| + 1;
      assert Join(x)[n..] == Join(x[1..]) && Join(y)[n..] == Join(y[1..]);
      if Join(x) != Join(y) {
        assert (Join(y) + ".")[n..] == Join(y[1..]) + ".";
      }
    }
  }

  // ---------------------------------------------------------------- What a contract shows

  /** Something stands under `keys`, or the last key is a text in a list. */
  ghost predicate ShowsIn(tree: Json, keys: seq<string>) {
    || (exists v :: Stands(tree, keys, v))
    || (keys != [] && Lists(tree, keys[..|keys| - 1], Text(keys[|keys| - 1])))
  }

  ghost predicate Shows(before: Json, after: Json, keys: seq<string>) {
    keys != [] && (ShowsIn(before, keys) || ShowsIn(after, keys))
  }

  /** No name beside one on the way along `path` continues it after a dot, nor does it continue another. */
  ghost predicate WellNamed(before: Json, after: Json, path: seq<string>) {
    forall y :: Shows(before, after, y) ==> !Dotted(path, y) && !Dotted(y, path)
  }

  lemma WellNamedAbove(before: Json, after: Json, path: seq<string>, prefix: seq<string>)
    requires WellNamed(before, after, path) && prefix <= path
    ensures WellNamed(before, after, prefix)
  {
    forall y | Shows(before, after, y)
      ensures !Dotted(prefix, y) && !Dotted(y, prefix)
    {
      DottedAbove(path, prefix, y);
    }
  }

  lemma DottedAbove(path: seq<string>, prefix: seq<string>, y: seq<string>)
    requires prefix <= path && !Dotted(path, y) && !Dotted(y, path)
    ensures !Dotted(prefix, y) && !Dotted(y, prefix)
  {
    forall c: nat
      ensures !DottedAt(prefix, y, c) && !DottedAt(y, prefix, c)
    {
      if c < |prefix| {
        assert path[..c] == prefix[..c];
        assert !DottedAt(path, y, c) && !DottedAt(y, path, c);
      }
    }
  }

  /** Along the keys of the one or the other, inside a path means below its keys. */
  lemma InsideMeansBelow(before: Json, after: Json, x: seq<string>, y: seq<string>)
    requires x != [] && y != []
    requires (WellNamed(before, after, x) && Shows(before, after, y))
      || (WellNamed(before, after, y) && Shows(before, after, x))
    ensures AtOrInside(Join(x), Join(y)) <==> y <= x
    ensures Inside(Join(x), Join(y)) <==> y < x
  {
    if AtOrInside(Join(x), Join(y)) {
      PathsFollowKeys(x, y);
    }
    if y <= x {
      var more := x[|y|..];
      assert x == y + more;
      JoinInside(y, more);
      if more == [] {
        assert x == y;
      } else {
        JoinAppend(y, more);
        assert Join(x) == Join(y) + "." + Join(more);
        assert Join(y) + "." <= Join(x);
      }
    }
  }

  lemma {:induction false} AtStands(tree: Json, keys: seq<string>, v: Json)
    requires At(tree, keys) == Some(v)
    ensures Stands(tree, keys, v)
    decreases |keys|
  {
    if keys != [] {
      AtStands(tree.fields[keys[0]], keys[1..], v);
    }
  }

  lemma {:induction false} StandsAppend(tree: Json, keys: seq<string>, mid: Json, more: seq<string>, v: Json)
    requires Stands(tree, keys, mid) && Stands(mid, more, v)
    ensures Stands(tree, keys + more, v)
    decreases tree
  {
    if keys == [] && tree == mid {
      assert keys + more == more;
    } else if tree.Obj? {
      StandsAppend(tree.fields[keys[0]], keys[1..], mid, more, v);
      assert (keys + more)[1..] == keys[1..] + more;
    } else {
      var n :| 0 <= n < |tree.items| && Stands(tree.items[n], keys, mid);
      StandsAppend(tree.items[n], keys, mid, more, v);
    }
  }

  lemma ListsAppend(tree: Json, keys: seq<string>, mid: Json, more: seq<string>, v: Json)
    requires Stands(tree, keys, mid) && Lists(mid, more, v)
    ensures Lists(tree, keys + more, v)
  {
    var items :| Stands(mid, more, Arr(items)) && v in items;
    StandsAppend(tree, keys, mid, more, Arr(items));
  }

  /** Whatever a list holds stands where the list does. */
  lemma {:induction false} ListedStands(tree: Json, keys: seq<string>, items: seq<Json>, v: Json)
    requires Stands(tree, keys, Arr(items)) && v in items
    ensures Stands(tree, keys, v)
  {
    var n :| 0 <= n < |items| && items[n] == v;
    assert Stands(items[n], [], v);
    assert Stands(Arr(items), [], v);
    StandsAppend(tree, keys, Arr(items), [], v);
    assert keys + [] == keys;
  }

  // ---------------------------------------------------------------- The keys of an entry

  /** The keys under which the entry of an item is shown. */
  function ShownSegs(it: DiffItem): seq<string> {
    if !HasOldValue(it.payload) && !IsElementItem(it) && IsIterable(it.kind) && it.payload.Text?
    then it.segs + [it.payload.text] else it.segs
  }

  lemma ShownPath(it: DiffItem)
    requires TypeOf(it.kind).Some? && !IsMalformed(it)
    ensures OwnEntry(it).path == Join(ShownSegs(it))
  {
  }

  /** `keys` is the place of a node below an added or removed dict, and `d` its entry. */
  ghost predicate PlacedNode(it: DiffItem, d: Detail, keys: seq<string>) {
    && TypeOf(it.kind).Some? && IsElementItem(it) && it.segs < keys
    && IsNode(it.payload.fields, keys[|it.segs|..])
    && d == NodeEntry(it.segs, it.payload.fields, TypeOf(it.kind).value, keys[|it.segs|..])
  }

  /** `keys` is the place of the entry `p` of an item. */
  ghost predicate Placed(it: DiffItem, entries: seq<Detail>, p: nat, keys: seq<string>) {
    && p < |entries| && entries[p].path == Join(keys) && it.segs <= keys
    && (if p == 0 then keys == ShownSegs(it) else PlacedNode(it, entries[p], keys))
  }

  lemma EntryHasAPlace(it: DiffItem, entries: seq<Detail>, p: nat) returns (keys: seq<string>)
    requires DetailsOf(it, entries) && p < |entries|
    ensures Placed(it, entries, p, keys)
  {
    if p == 0 {
      keys := ShownSegs(it);
      ShownPath(it);
    } else {
      var node := LaterEntryIsANode(it, entries, p);
      keys := it.segs + node;
      assert keys[|it.segs|..] == node;
      NodePath(it.segs, it.payload.fields, TypeOf(it.kind).value, node);
    }
  }

  /** What an item of the diff reports stands in one of the contracts, in a list if it came with or left one. */
  ghost predicate ReportedIn(it: DiffItem, tree: Json, v: Json) {
    && Stands(tree, it.segs, v) && (!it.kind.ValuesChanged? && !it.kind.TypeChanges? ==> v == it.payload)
    && (IsIterable(it.kind) ==> Lists(tree, it.segs, v))
  }

  lemma ReportedValueStands(it: DiffItem, before: Json, after: Json) returns (v: Json)
    requires PartsFor(it, before, after)
    ensures ReportedIn(it, before, v) || ReportedIn(it, after, v)
  {
    var place :| Parts(before, after, place) && ReportsAt(it, before, after, place);
    if BothLists(before, after, place) {
      var rest := it.segs[|place|..];
      assert it.segs == place + rest;
      var inBefore;
      v, inBefore := ValueWithin(it, rest, At(before, place).value, At(after, place).value);
      if inBefore {
        AtStands(before, place, At(before, place).value);
        ValueWithinTree(it, before, place, At(before, place).value, rest, v);
      } else {
        AtStands(after, place, At(after, place).value);
        ValueWithinTree(it, after, place, At(after, place).value, rest, v);
      }
    } else if At(after, place).Some? {
      v := At(after, place).value;
      AtStands(after, place, v);
      if !it.kind.ItemAdded? && At(before, place).Some? {
        AtStands(before, place, At(before, place).value);
      }
    } else {
      v := At(before, place).value;
      AtStands(before, place, v);
    }
  }

  lemma ValueWithinTree(it: DiffItem, tree: Json, place: seq<string>, list: Json, rest: seq<string>, v: Json)
    requires Stands(tree, place, list) && it.segs == place + rest && Stands(list, rest, v)
    requires !it.kind.ValuesChanged? && !it.kind.TypeChanges? ==> v == it.payload
    requires IsIterable(it.kind) ==> Lists(list, rest, v)
    ensures ReportedIn(it, tree, v)
  {
    StandsAppend(tree, place, list, rest, v);
    if IsIterable(it.kind) {
      ListsAppend(tree, place, list, rest, v);
    }
  }

  lemma ValueWithin(it: DiffItem, rest: seq<string>, a: Json, b: Json) returns (v: Json, inBefore: bool)
    requires ReportsWithin(it, rest, a, b)
    ensures Stands(if inBefore then a else b, rest, v)
    ensures !it.kind.ValuesChanged? && !it.kind.TypeChanges? ==> v == it.payload
    ensures IsIterable(it.kind) ==> Lists(if inBefore then a else b, rest, v)
  {
    inBefore := !it.kind.ItemAdded? && !it.kind.IterableAdded?;
    if it.kind.ValuesChanged? || it.kind.TypeChanges? {
      var w;
      v, w :| Replaces(it, v, w) && Stands(a, rest, v) && Stands(b, rest, w);
    } else {
      v := it.payload;
      if IsIterable(it.kind) {
        var list := if inBefore then a else b;
        var items :| Stands(list, rest, Arr(items)) && v in items;
        ListedStands(list, rest, items, v);
      }
    }
  }

  /** The place of every entry is shown in one of the contracts. */
  lemma PlacesAreShown(before: Json, after: Json, it: DiffItem, entries: seq<Detail>, p: nat, keys: seq<string>)
    requires PartsFor(it, before, after) && DetailsOf(it, entries) && Placed(it, entries, p, keys)
    ensures Shows(before, after, keys)
  {
    var v := ReportedValueStands(it, before, after);
    PartsHaveKeys(it, before, after);
    PlaceIsShown(if ReportedIn(it, before, v) then before else after, it, entries, p, keys, v);
  }

  lemma PlaceIsShown(tree: Json, it: DiffItem, entries: seq<Detail>, p: nat, keys: seq<string>, v: Json)
    requires ReportedIn(it, tree, v) && DetailsOf(it, entries) && Placed(it, entries, p, keys)
    ensures ShowsIn(tree, keys)
  {
    if p > 0 {
      var node := keys[|it.segs|..];
      assert keys == it.segs + node;
      AtStands(it.payload, node, At(it.payload, node).value);
      StandsAppend(tree, it.segs, it.payload, node, At(it.payload, node).value);
    } else if keys != it.segs {
      assert keys[..|keys| - 1] == it.segs && keys[|keys| - 1] == it.payload.text;
    }
  }

  lemma PartsHaveKeys(it: DiffItem, before: Json, after: Json)
    requires PartsFor(it, before, after)
    ensures it.segs != []
  {
    var place :| Parts(before, after, place) && ReportsAt(it, before, after, place);
    ReportsHaveAType(it, before, after, place);
  }

  // ---------------------------------------------------------------- Below a dict

  lemma ShownBelow(tree: Json, segs: seq<string>, more: seq<string>)
    requires At(tree, segs).Some? && At(tree, segs).value.Obj? && ShowsIn(tree, segs + more) && more != []
    ensures ShowsIn(At(tree, segs).value, more)
  {
    var keys, sub := segs + more, At(tree, segs).value;
    if v :| Stands(tree, keys, v) {
      StandsBelow(tree, segs, more, v);
    } else {
      var last := Text(keys[|keys| - 1]);
      var items :| Stands(tree, keys[..|keys| - 1], Arr(items)) && last in items;
      var front := more[..|more| - 1];
      assert keys[..|keys| - 1] == segs + front;
      if front == [] {
        DictIsNoList(tree, segs, items);
      }
      StandsBelow(tree, segs, front, Arr(items));
      assert Lists(sub, front, Text(more[|more| - 1]));
    }
  }

  lemma {:induction false} DictIsNoList(tree: Json, segs: seq<string>, items: seq<Json>)
    requires At(tree, segs).Some? && At(tree, segs).value.Obj?
    ensures !Stands(tree, segs + [], Arr(items))
    decreases |segs|
  {
    if segs != [] {
      assert (segs + [])[1..] == segs[1..] + [];
      DictIsNoList(tree.fields[segs[0]], segs[1..], items);
    }
  }

  lemma {:induction false} StandsBelow(tree: Json, segs: seq<string>, more: seq<string>, v: Json)
    requires At(tree, segs).Some? && Stands(tree, segs + more, v) && more != []
    ensures Stands(At(tree, segs).value, more, v)
    decreases |segs|
  {
    if segs == [] {
      assert segs + more == more;
    } else {
      assert (segs + more)[0] == segs[0] && (segs + more)[1..] == segs[1..] + more;
      StandsBelow(tree.fields[segs[0]], segs[1..], more, v);
    }
  }

  /** Below a dict of both versions everything stands through a key of one of them. */
  lemma ShownThroughAKey(before: Json, after: Json, segs: seq<string>, f: Dict, g: Dict, keys: seq<string>)
    requires At(before, segs) == Some(Obj(f)) && At(after, segs) == Some(Obj(g))
    requires Shows(before, after, keys) && segs < keys
    ensures keys[|segs|] in f || keys[|segs|] in g
  {
    var more := keys[|segs|..];
    assert keys == segs + more;
    if ShowsIn(before, keys) {
      ShownBelow(before, segs, more);
      ShownInADict(f, more);
    } else {
      ShownBelow(after, segs, more);
      ShownInADict(g, more);
    }
  }

  lemma ShownInADict(d: Dict, keys: seq<string>)
    requires ShowsIn(Obj(d), keys) && keys != []
    ensures keys[0] in d
  {
    if v :| Stands(Obj(d), keys, v) {
    } else {
      var front := keys[..|keys| - 1];
      var items :| Stands(Obj(d), front, Arr(items)) && Text(keys[|keys| - 1]) in items;
      assert front != [] && front[0] == keys[0];
    }
  }
}
