/**
 * Turning the diff of two contracts into detail entries and a rolled-up summary.
 */
module Changelog {
  import opened Wrappers
  import opened JsonTrees
  import opened Breaking
  import opened Paths

  datatype DiffKind =
    | ItemAdded | ItemRemoved | ValuesChanged | TypeChanges | IterableAdded | IterableRemoved | OtherKind

  /** One item of the raw diff: what happened, at which keys, and what was there. */
  datatype DiffItem = DiffItem(kind: DiffKind, segs: seq<string>, payload: Json)

  /** A detail entry; a value that is None is absent. */
  datatype Detail = Detail(path: string, kind: ChangeType, oldValue: Option<Json>, newValue: Option<Json>)

  datatype SummaryChange = SummaryChange(path: string, kind: ChangeType)

  function TypeOf(kind: DiffKind): Option<ChangeType> {
    match kind
    case ItemAdded => Some(Added)
    case ItemRemoved => Some(Removed)
    case ValuesChanged => Some(Updated)
    case TypeChanges => Some(Updated)
    case IterableAdded => Some(Added)
    case IterableRemoved => Some(Removed)
    case OtherKind => None
  }

  predicate IsIterable(kind: DiffKind) { kind.IterableAdded? || kind.IterableRemoved? }

  /** The payload of an update; an added dict with a key `old_value` reads as one too. */
  predicate HasOldValue(payload: Json) { payload.Obj? && "old_value" in payload.fields }

  /** Reading `new_value` of such a payload raises if it has none. */
  predicate IsMalformed(it: DiffItem) {
    TypeOf(it.kind).Some? && HasOldValue(it.payload) && "new_value" !in it.payload.fields
  }

  function Leaf(path: string, kind: ChangeType, value: Json): Detail {
    if kind.Added? then Detail(path, kind, None, Some(value)) else Detail(path, kind, Some(value), None)
  }

  // ---------------------------------------------------------------- Detail entries

  /** `keys` leads to a value strictly below `fields`. */
  ghost predicate IsNode(fields: Dict, keys: seq<string>) {
    keys != [] && At(Obj(fields), keys).Some?
  }

  /** The entry of the node at `keys` of an added or removed dict. */
  ghost function NodeEntry(base: seq<string>, fields: Dict, kind: ChangeType, keys: seq<string>): Detail
    requires IsNode(fields, keys)
  {
    var value := At(Obj(fields), keys).value;
    if value.Obj? then Detail(Join(base + keys), kind, None, None) else Leaf(Join(base + keys), kind, value)
  }

  ghost predicate EntryAt(base: seq<string>, fields: Dict, kind: ChangeType, entry: Detail, keys: seq<string>) {
    IsNode(fields, keys) && entry == NodeEntry(base, fields, kind, keys)
  }

  ghost predicate Distinct(at: seq<seq<string>>) {
    forall m, n :: 0 <= m < n < |at| ==> at[m] != at[n]
  }

  /** Each entry is that of its node, and the node's first key is in `firsts`. */
  ghost predicate EntriesAt(
      base: seq<string>, fields: Dict, kind: ChangeType, firsts: set<string>, entries: seq<Detail>,
      at: seq<seq<string>>)
  {
    |at| == |entries| && forall n :: 0 <= n < |at| ==>
      EntryAt(base, fields, kind, entries[n], at[n]) && at[n][0] in firsts
  }

  ghost predicate Covers(fields: Dict, firsts: set<string>, at: seq<seq<string>>) {
    forall keys :: IsNode(fields, keys) && keys[0] in firsts ==> keys in at
  }

  /** `entries` holds one entry for each node whose first key is in `firsts`; `at` says which. */
  ghost predicate ExpandsSome(
      base: seq<string>, fields: Dict, kind: ChangeType, firsts: set<string>, entries: seq<Detail>,
      at: seq<seq<string>>)
  {
    EntriesAt(base, fields, kind, firsts, entries, at) && Distinct(at) && Covers(fields, firsts, at)
  }

  /** `entries` holds one entry for each node below `fields`; `at` says which. */
  ghost predicate ExpandsTo(
      base: seq<string>, fields: Dict, kind: ChangeType, entries: seq<Detail>, at: seq<seq<string>>)
  {
    && |at| == |entries|
    && (forall n :: 0 <= n < |at| ==> EntryAt(base, fields, kind, entries[n], at[n]))
    && Distinct(at)
    && (forall keys :: IsNode(fields, keys) ==> keys in at)
  }

  ghost predicate Expands(base: seq<string>, fields: Dict, kind: ChangeType, entries: seq<Detail>) {
    exists at :: ExpandsTo(base, fields, kind, entries, at)
  }

  ghost function Prepend(key: string, at: seq<seq<string>>): (r: seq<seq<string>>)
    ensures |r| == |at| && forall n :: 0 <= n < |at| ==> r[n] == [key] + at[n]
  {
    seq(|at|, n requires 0 <= n < |at| => [key] + at[n])
  }

  lemma NodeBelow(fields: Dict, key: string, keys: seq<string>)
    requires key in fields
    ensures At(Obj(fields), [key] + keys) == At(fields[key], keys)
  {
    assert ([key] + keys)[1..] == keys;
  }

  lemma KeyOwnEntry(base: seq<string>, fields: Dict, kind: ChangeType, key: string)
    requires key in fields
    ensures IsNode(fields, [key])
    ensures NodeEntry(base, fields, kind, [key]) ==
      if fields[key].Obj? then Detail(Join(base + [key]), kind, None, None)
      else Leaf(Join(base + [key]), kind, fields[key])
  {
    NodeBelow(fields, key, []);
    assert [key] + [] == [key];
  }

  lemma KeyLaterEntry(base: seq<string>, fields: Dict, kind: ChangeType, key: string, keys: seq<string>)
    requires key in fields && fields[key].Obj? && IsNode(fields[key].fields, keys)
    ensures IsNode(fields, [key] + keys)
    ensures NodeEntry(base, fields, kind, [key] + keys) == NodeEntry(base + [key], fields[key].fields, kind, keys)
  {
    NodeBelow(fields, key, keys);
    assert base + [key] + keys == base + ([key] + keys);
  }

  /** The nodes whose first key is `key` are its own and those below its value. */
  lemma NodesOfKey(fields: Dict, key: string, keys: seq<string>)
    requires key in fields && IsNode(fields, keys) && keys[0] == key
    ensures keys == [key] || (fields[key].Obj? && IsNode(fields[key].fields, keys[1..]))
  {
    assert keys == [key] + keys[1..];
    NodeBelow(fields, key, keys[1..]);
  }

  ghost function KeyNodes(key: string, belowAt: seq<seq<string>>): seq<seq<string>> {
    [[key]] + Prepend(key, belowAt)
  }

  lemma KeyEntries(
      base: seq<string>, fields: Dict, kind: ChangeType, key: string, own: Detail, below: seq<Detail>,
      belowAt: seq<seq<string>>)
    requires IsNode(fields, [key]) && own == NodeEntry(base, fields, kind, [key])
    requires key in fields && |below| == |belowAt|
    requires forall n :: 0 <= n < |belowAt| ==>
      fields[key].Obj? && EntryAt(base + [key], fields[key].fields, kind, below[n], belowAt[n])
    ensures EntriesAt(base, fields, kind, {key}, [own] + below, KeyNodes(key, belowAt))
  {
    var entries, at := [own] + below, KeyNodes(key, belowAt);
    forall n | 0 <= n < |at|
      ensures EntryAt(base, fields, kind, entries[n], at[n]) && at[n][0] in {key}
    {
      if n > 0 {
        assert entries[n] == below[n - 1] && at[n] == [key] + belowAt[n - 1];
        assert EntryAt(base + [key], fields[key].fields, kind, below[n - 1], belowAt[n - 1]);
        KeyLaterEntry(base, fields, kind, key, belowAt[n - 1]);
      }
    }
  }

  lemma KeyNodesDistinct(key: string, belowAt: seq<seq<string>>)
    requires Distinct(belowAt) && forall n :: 0 <= n < |belowAt| ==> belowAt[n] != []
    ensures Distinct(KeyNodes(key, belowAt))
  {
    var at := KeyNodes(key, belowAt);
    forall m, n | 0 <= m < n < |at|
      ensures at[m] != at[n]
    {
      if m == 0 {
        assert |at[n]| == 1 + |belowAt[n - 1]|;
      } else {
        assert at[m][1..] == belowAt[m - 1] && at[n][1..] == belowAt[n - 1];
      }
    }
  }

  lemma KeyNodesCover(fields: Dict, key: string, belowAt: seq<seq<string>>)
    requires key in fields
    requires fields[key].Obj? ==> forall keys :: IsNode(fields[key].fields, keys) ==> keys in belowAt
    ensures Covers(fields, {key}, KeyNodes(key, belowAt))
  {
    var at := KeyNodes(key, belowAt);
    forall keys | IsNode(fields, keys) && keys[0] in {key}
      ensures keys in at
    {
      NodesOfKey(fields, key, keys);
      if keys == [key] {
        assert at[0] == keys;
      } else {
        var n :| 0 <= n < |belowAt| && belowAt[n] == keys[1..];
        assert at[n + 1] == [key] + belowAt[n];
        assert keys == [key] + keys[1..];
      }
    }
  }

  lemma ExpandKey(
      base: seq<string>, fields: Dict, kind: ChangeType, key: string, own: Detail, below: seq<Detail>,
      belowAt: seq<seq<string>>)
    requires key in fields
    requires own ==
      if fields[key].Obj? then Detail(Join(base + [key]), kind, None, None)
      else Leaf(Join(base + [key]), kind, fields[key])
    requires
      if fields[key].Obj? then ExpandsTo(base + [key], fields[key].fields, kind, below, belowAt)
      else below == [] && belowAt == []
    ensures ExpandsSome(base, fields, kind, {key}, [own] + below, KeyNodes(key, belowAt))
  {
    KeyOwnEntry(base, fields, kind, key);
    KeyEntries(base, fields, kind, key, own, below, belowAt);
    forall n | 0 <= n < |belowAt|
      ensures belowAt[n] != []
    {
      assert EntryAt(base + [key], fields[key].fields, kind, below[n], belowAt[n]);
    }
    KeyNodesDistinct(key, belowAt);
    KeyNodesCover(fields, key, belowAt);
  }

  lemma DistinctTogether(at: seq<seq<string>>, more: seq<seq<string>>, firsts: set<string>, key: string)
    requires Distinct(at) && Distinct(more) && key !in firsts
    requires forall n :: 0 <= n < |at| ==> at[n] != [] && at[n][0] in firsts
    requires forall n :: 0 <= n < |more| ==> more[n] != [] && more[n][0] in {key}
    ensures Distinct(at + more)
  {
    forall m, n | 0 <= m < n < |at + more|
      ensures (at + more)[m] != (at + more)[n]
    {
      if m < |at| && n >= |at| {
        assert at[m][0] in firsts && more[n - |at|][0] in {key};
      }
    }
  }

  lemma NodesUnder(
      base: seq<string>, fields: Dict, kind: ChangeType, firsts: set<string>, entries: seq<Detail>,
      at: seq<seq<string>>)
    requires EntriesAt(base, fields, kind, firsts, entries, at)
    ensures forall n :: 0 <= n < |at| ==> at[n] != [] && at[n][0] in firsts
  {
    forall n | 0 <= n < |at|
      ensures at[n] != [] && at[n][0] in firsts
    {
      assert EntryAt(base, fields, kind, entries[n], at[n]);
    }
  }

  lemma EntriesTogether(
      base: seq<string>, fields: Dict, kind: ChangeType, firsts: set<string>, entries: seq<Detail>,
      at: seq<seq<string>>,
      key: string, more: seq<Detail>, moreAt: seq<seq<string>>)
    requires EntriesAt(base, fields, kind, firsts, entries, at) && EntriesAt(base, fields, kind, {key}, more, moreAt)
    ensures EntriesAt(base, fields, kind, firsts + {key}, entries + more, at + moreAt)
  {
    forall n | 0 <= n < |at + moreAt|
      ensures EntryAt(base, fields, kind, (entries + more)[n], (at + moreAt)[n])
      ensures (at + moreAt)[n][0] in firsts + {key}
    {
      if n < |at| {
        assert EntryAt(base, fields, kind, entries[n], at[n]);
      } else {
        assert EntryAt(base, fields, kind, more[n - |at|], moreAt[n - |at|]);
      }
    }
  }

  /** Adding the entries of one more key. */
  lemma ExpandOneMore(
      base: seq<string>, fields: Dict, kind: ChangeType, firsts: set<string>, entries: seq<Detail>,
      at: seq<seq<string>>,
      key: string, more: seq<Detail>, moreAt: seq<seq<string>>)
    requires ExpandsSome(base, fields, kind, firsts, entries, at)
    requires key !in firsts && ExpandsSome(base, fields, kind, {key}, more, moreAt)
    ensures ExpandsSome(base, fields, kind, firsts + {key}, entries + more, at + moreAt)
  {
    EntriesTogether(base, fields, kind, firsts, entries, at, key, more, moreAt);
    NodesUnder(base, fields, kind, firsts, entries, at);
    NodesUnder(base, fields, kind, {key}, more, moreAt);
    DistinctTogether(at, moreAt, firsts, key);
    forall keys | IsNode(fields, keys) && keys[0] in firsts + {key}
      ensures keys in at + moreAt
    {
      assert keys[0] in firsts || keys[0] in {key};
    }
  }

  lemma ExpandsAll(base: seq<string>, fields: Dict, kind: ChangeType, entries: seq<Detail>, at: seq<seq<string>>)
    requires ExpandsSome(base, fields, kind, fields.Keys, entries, at)
    ensures ExpandsTo(base, fields, kind, entries, at)
  {
  }

  /** One entry for each node below an added or removed dict, in whatever order its keys come. */
  method Expand(base: seq<string>, fields: Dict, kind: ChangeType, ghost whole: Json)
      returns (entries: seq<Detail>, ghost at: seq<seq<string>>)
    requires whole == Obj(fields)
    ensures ExpandsTo(base, fields, kind, entries, at) && Expands(base, fields, kind, entries)
    decreases whole
  {
    entries, at := [], [];
    var todo := fields.Keys;
    ghost var done := {};
    while todo != {}
      invariant todo <= fields.Keys && done == fields.Keys - todo
      invariant ExpandsSome(base, fields, kind, done, entries, at)
    {
      var key :| key in todo;
      var value := fields[key];
      var block: seq<Detail>;
      ghost var blockAt;
      if value.Obj? {
        var below, belowAt := Expand(base + [key], value.fields, kind, value);
        block, blockAt := [Detail(Join(base + [key]), kind, None, None)] + below, KeyNodes(key, belowAt);
        ExpandKey(base, fields, kind, key, Detail(Join(base + [key]), kind, None, None), below, belowAt);
      } else {
        block, blockAt := [Leaf(Join(base + [key]), kind, value)], KeyNodes(key, []);
        assert block == [Leaf(Join(base + [key]), kind, value)] + [];
        ExpandKey(base, fields, kind, key, Leaf(Join(base + [key]), kind, value), [], []);
      }
      ExpandOneMore(base, fields, kind, done, entries, at, key, block, blockAt);
      entries, at := entries + block, at + blockAt;
      todo, done := todo - {key}, done + {key};
    }
    assert done == fields.Keys;
    ExpandsAll(base, fields, kind, entries, at);
  }

  // ---------------------------------------------------------------- The entries of one item

  predicate IsElementItem(it: DiffItem) {
    (it.kind.ItemAdded? || it.kind.ItemRemoved? || IsIterable(it.kind)) && it.payload.Obj? && !HasOldValue(it.payload)
  }

  /** The entry of the item itself. */
  function OwnEntry(it: DiffItem): Detail
    requires TypeOf(it.kind).Some? && !IsMalformed(it)
  {
    var kind := TypeOf(it.kind).value;
    if HasOldValue(it.payload) then
      Detail(Join(it.segs), kind, Some(it.payload.fields["old_value"]), Some(it.payload.fields["new_value"]))
    else if IsElementItem(it) then Detail(Join(it.segs), kind, None, None)
    else if IsIterable(it.kind) && it.payload.Text? then Detail(Join(it.segs + [it.payload.text]), kind, None, None)
    else Leaf(Join(it.segs), kind, it.payload)
  }

  /** The entries of an item: its own, and for an added or removed dict one for each node below. */
  ghost predicate DetailsOf(it: DiffItem, entries: seq<Detail>) {
    && TypeOf(it.kind).Some? && !IsMalformed(it) && entries != [] && entries[0] == OwnEntry(it)
    && (if IsElementItem(it)
        then Expands(it.segs, it.payload.fields, TypeOf(it.kind).value, entries[1..])
        else entries[1..] == [])
  }

  /** The blocks of entries of all items, in order; items of other kinds have none. */
  ghost predicate BlocksOf(items: seq<DiffItem>, blocks: seq<seq<Detail>>) {
    && |blocks| == |items|
    && forall n :: 0 <= n < |items| ==>
      if TypeOf(items[n].kind).None? then blocks[n] == [] else DetailsOf(items[n], blocks[n])
  }

  ghost function Flatten(blocks: seq<seq<Detail>>): seq<Detail> {
    if blocks == [] then [] else Flatten(blocks[..|blocks| - 1]) + blocks[|blocks| - 1]
  }

  method ItemDetails(it: DiffItem) returns (entries: seq<Detail>)
    requires TypeOf(it.kind).Some? && !IsMalformed(it)
    ensures DetailsOf(it, entries)
  {
    entries := [OwnEntry(it)];
    if IsElementItem(it) {
      var below, at := Expand(it.segs, it.payload.fields, TypeOf(it.kind).value, it.payload);
      entries := entries + below;
      assert entries[1..] == below;
    }
  }

  method CollectDetails(items: seq<DiffItem>) returns (details: Option<seq<Detail>>, ghost blocks: seq<seq<Detail>>)
    ensures details.None? <==> exists n :: 0 <= n < |items| && IsMalformed(items[n])
    ensures details.Some? ==> BlocksOf(items, blocks) && details.value == Flatten(blocks)
  {
    var all: seq<Detail> := [];
    blocks := [];
    for n := 0 to |items|
      invariant forall k :: 0 <= k < n ==> !IsMalformed(items[k])
      invariant BlocksOf(items[..n], blocks) && all == Flatten(blocks)
    {
      if IsMalformed(items[n]) {
        return None, blocks;
      }
      var entries: seq<Detail> := [];
      if TypeOf(items[n].kind).Some? {
        entries := ItemDetails(items[n]);
      }
      assert (blocks + [entries])[..n] == blocks;
      all, blocks := all + entries, blocks + [entries];
    }
    assert items[..|items|] == items;
    details := Some(all);
  }

  // ---------------------------------------------------------------- Sorting by path

  /** Python's order of strings: by code points, a prefix first. */
  predicate PathLeq(a: string, b: string) {
    a == "" || (b != "" && (a[0] < b[0] || (a[0] == b[0] && PathLeq(a[1..], b[1..]))))
  }

  lemma {:induction false} PathOrder(a: string, b: string, c: string)
    ensures PathLeq(a, b) || PathLeq(b, a)
    ensures PathLeq(a, b) && PathLeq(b, c) ==> PathLeq(a, c)
    ensures PathLeq(a, a)
  {
    if a != "" {
      PathOrder(a[1..], if b != "" then b[1..] else b, if c != "" then c[1..] else c);
    }
  }

  ghost predicate SortedByPath(s: seq<Detail>) {
    forall i, j :: 0 <= i < j < |s| ==> PathLeq(s[i].path, s[j].path)
  }

  /** `d` inserted behind all entries whose path is not greater. */
  function InsertByPath(s: seq<Detail>, d: Detail): seq<Detail> {
    if s == [] || PathLeq(s[|s| - 1].path, d.path) then s + [d]
    else InsertByPath(s[..|s| - 1], d) + [s[|s| - 1]]
  }

  function SortByPath(s: seq<Detail>): seq<Detail> {
    if s == [] then [] else InsertByPath(SortByPath(s[..|s| - 1]), s[|s| - 1])
  }

  lemma {:induction false} InsertByPathSorts(s: seq<Detail>, d: Detail)
    requires SortedByPath(s)
    ensures SortedByPath(InsertByPath(s, d)) && multiset(InsertByPath(s, d)) == multiset(s) + multiset{d}
  {
    if s == [] {
    } else if PathLeq(s[|s| - 1].path, d.path) {
      forall i | 0 <= i < |s|
        ensures PathLeq(s[i].path, d.path)
      {
        PathOrder(s[i].path, s[|s| - 1].path, d.path);
      }
    } else {
      var last, rest := s[|s| - 1], s[..|s| - 1];
      InsertByPathSorts(rest, d);
      assert s == rest + [last];
      var t := InsertByPath(rest, d);
      PathOrder(last.path, d.path, d.path);
      forall i | 0 <= i < |t|
        ensures PathLeq(t[i].path, last.path)
      {
        assert t[i] in multiset(t);
        assert t[i] == d || t[i] in rest;
      }
    }
  }

  /** Sorting keeps every entry, as often as it occurs. */
  lemma {:induction false} SortByPathSorts(s: seq<Detail>)
    ensures SortedByPath(SortByPath(s)) && multiset(SortByPath(s)) == multiset(s)
  {
    if s != [] {
      var front, last := s[..|s| - 1], s[|s| - 1];
      SortByPathSorts(front);
      InsertByPathSorts(SortByPath(front), last);
      assert SortByPath(s) == InsertByPath(SortByPath(front), last);
      assert s == front + [last];
    }
  }

  // ---------------------------------------------------------------- The summary

  predicate IsScalarChange(it: DiffItem) {
    && TypeOf(it.kind) == Some(Updated) && HasOldValue(it.payload)
    && !it.payload.fields["old_value"].Obj? && !Get(it.payload.fields, "new_value").Obj?
  }

  predicate IsScalarLeaf(it: DiffItem) {
    (it.kind.ItemAdded? || it.kind.ItemRemoved?) && !it.payload.Obj?
  }

  /** Where the summary reports an item: scalars at their parent, everything else at its own path. */
  function DisplaySegs(it: DiffItem): seq<string> {
    if IsIterable(it.kind) && it.payload.Text? then it.segs
    else if (IsScalarChange(it) || IsScalarLeaf(it)) && |it.segs| > 1 then it.segs[..|it.segs| - 1]
    else it.segs
  }

  type Groups = map<seq<string>, ChangeType>

  function AddToGroups(groups: Groups, it: DiffItem): Groups {
    match TypeOf(it.kind)
    case None => groups
    case Some(kind) =>
      var segs := DisplaySegs(it);
      if segs in groups && groups[segs] != kind then groups[segs := Updated]
      else if segs in groups then groups
      else groups[segs := kind]
  }

  method GroupItems(items: seq<DiffItem>) returns (groups: Groups, order: seq<seq<string>>)
    ensures groups == GroupsOf(items)
    ensures (forall i, j :: 0 <= i < j < |order| ==> order[i] != order[j]) && forall s :: s in order <==> s in groups
  {
    groups, order := map[], [];
    for n := 0 to |items|
      invariant groups == GroupsOf(items[..n])
      invariant forall i, j :: 0 <= i < j < |order| ==> order[i] != order[j]
      invariant forall s :: s in order <==> s in groups
    {
      assert items[..n + 1][..n] == items[..n];
      var kind := TypeOf(items[n].kind);
      if kind.Some? {
        var segs := DisplaySegs(items[n]);
        if segs !in groups {
          groups, order := groups[segs := kind.value], order + [segs];
        } else if groups[segs] != kind.value {
          groups := groups[segs := Updated];
        }
      }
    }
    assert items[..|items|] == items;
  }

  ghost function GroupsOf(items: seq<DiffItem>): Groups {
    if items == [] then map[] else AddToGroups(GroupsOf(items[..|items| - 1]), items[|items| - 1])
  }

  /** Some item is reported at `segs` with type `kind`. */
  ghost predicate ReportedAs(items: seq<DiffItem>, segs: seq<string>, kind: ChangeType) {
    exists n :: 0 <= n < |items| && TypeOf(items[n].kind) == Some(kind) && DisplaySegs(items[n]) == segs
  }

  lemma ReportedStep(items: seq<DiffItem>, segs: seq<string>, kind: ChangeType)
    requires items != []
    ensures ReportedAs(items, segs, kind) <==>
      || ReportedAs(items[..|items| - 1], segs, kind)
      || (TypeOf(items[|items| - 1].kind) == Some(kind) && DisplaySegs(items[|items| - 1]) == segs)
  {
  }

  /** The common type of the items reported at one place; Updated if they differ. */
  ghost function RollUp(items: seq<DiffItem>, segs: seq<string>): ChangeType {
    var added, removed := ReportedAs(items, segs, Added), ReportedAs(items, segs, Removed);
    if ReportedAs(items, segs, Updated) || (added && removed) then Updated
    else if added then Added
    else Removed
  }

  /** A group exists where some item is reported, with the type rolled up from those items. */
  lemma {:induction false} GroupsRollUp(items: seq<DiffItem>, segs: seq<string>)
    ensures segs in GroupsOf(items) <==>
      ReportedAs(items, segs, Added) || ReportedAs(items, segs, Removed) || ReportedAs(items, segs, Updated)
    ensures segs in GroupsOf(items) ==> GroupsOf(items)[segs] == RollUp(items, segs)
  {
    if items != [] {
      GroupsRollUp(items[..|items| - 1], segs);
      ReportedStep(items, segs, Added);
      ReportedStep(items, segs, Removed);
      ReportedStep(items, segs, Updated);
    }
  }

  // ---------------------------------------------------------------- The changelog

  /** One summary change for each place at which items are reported, with their rolled-up type. */
  ghost predicate SummaryOf(items: seq<DiffItem>, summary: seq<SummaryChange>, at: seq<seq<string>>) {
    && |at| == |summary|
    && (forall i, j :: 0 <= i < j < |at| ==> at[i] != at[j])
    && (forall segs :: segs in at <==> segs in GroupsOf(items))
    && (forall n :: 0 <= n < |at| ==> summary[n] == SummaryChange(Join(at[n]), RollUp(items, at[n])))
  }

  function InsertSummary(s: seq<SummaryChange>, change: SummaryChange): (n: nat)
    ensures n <= |s|
  {
    if s == [] || PathLeq(s[|s| - 1].path, change.path) then |s| else InsertSummary(s[..|s| - 1], change)
  }

  ghost predicate SummarySorted(s: seq<SummaryChange>) {
    forall i, j :: 0 <= i < j < |s| ==> PathLeq(s[i].path, s[j].path)
  }

  lemma {:induction false} InsertSummarySorts(s: seq<SummaryChange>, change: SummaryChange)
    requires SummarySorted(s)
    ensures var n := InsertSummary(s, change); SummarySorted(s[..n] + [change] + s[n..])
  {
    if s == [] {
    } else if PathLeq(s[|s| - 1].path, change.path) {
      forall i | 0 <= i < |s|
        ensures PathLeq(s[i].path, change.path)
      {
        PathOrder(s[i].path, s[|s| - 1].path, change.path);
      }
    } else {
      var last, rest := s[|s| - 1], s[..|s| - 1];
      InsertSummarySorts(rest, change);
      PathOrder(last.path, change.path, change.path);
      var n := InsertSummary(s, change);
      assert s[..n] == rest[..n] && s[n..] == rest[n..] + [last];
      assert s[..n] + [change] + s[n..] == (rest[..n] + [change] + rest[n..]) + [last];
    }
  }

  /** The summary of the groups at `at`, in the order of their paths. */
  ghost predicate SummaryAt(items: seq<DiffItem>, summary: seq<SummaryChange>, at: seq<seq<string>>) {
    && |at| == |summary| && SummarySorted(summary)
    && (forall n :: 0 <= n < |at| ==> summary[n] == SummaryChange(Join(at[n]), RollUp(items, at[n])))
  }

  method InsertGroup(
      items: seq<DiffItem>, summary: seq<SummaryChange>, ghost at: seq<seq<string>>, segs: seq<string>,
      kind: ChangeType)
      returns (more: seq<SummaryChange>, ghost moreAt: seq<seq<string>>)
    requires SummaryAt(items, summary, at) && kind == RollUp(items, segs)
    ensures SummaryAt(items, more, moreAt) && |more| == |summary| + 1
    ensures multiset(moreAt) == multiset(at) + multiset{segs}
  {
    var change := SummaryChange(Join(segs), kind);
    var k := InsertSummary(summary, change);
    InsertSummarySorts(summary, change);
    assert at == at[..k] + at[k..];
    more, moreAt := summary[..k] + [change] + summary[k..], at[..k] + [segs] + at[k..];
  }

  lemma SameElementsOnce(at: seq<seq<string>>, order: seq<seq<string>>)
    requires multiset(at) == multiset(order)
    requires forall i, j :: 0 <= i < j < |order| ==> order[i] != order[j]
    ensures forall i, j :: 0 <= i < j < |at| ==> at[i] != at[j]
    ensures forall segs :: segs in at <==> segs in order
  {
    forall i, j | 0 <= i < j < |at|
      ensures at[i] != at[j]
    {
      if at[i] == at[j] {
        assert at == at[..i] + [at[i]] + at[i + 1..j] + [at[j]] + at[j + 1..];
        assert multiset(order)[at[i]] >= 2;
        TwiceMeansTwoPlaces(order, at[i]);
      }
    }
    forall segs
      ensures segs in at <==> segs in order
    {
      assert segs in at <==> segs in multiset(at);
      assert segs in order <==> segs in multiset(order);
    }
  }

  lemma {:induction false} TwiceMeansTwoPlaces(order: seq<seq<string>>, x: seq<string>)
    requires multiset(order)[x] >= 2
    ensures exists i, j :: 0 <= i < j < |order| && order[i] == order[j]
  {
    var n := |order| - 1;
    assert order == order[..n] + [order[n]];
    if multiset(order[..n])[x] >= 2 {
      TwiceMeansTwoPlaces(order[..n], x);
      var i, j :| 0 <= i < j < n && order[..n][i] == order[..n][j];
      assert order[i] == order[j];
    } else {
      assert x in multiset(order[..n]);
      var i :| 0 <= i < n && order[..n][i] == x;
      assert order[i] == order[n];
    }
  }

  method SummarizeGroups(items: seq<DiffItem>) returns (summary: seq<SummaryChange>, ghost at: seq<seq<string>>)
    ensures SummaryOf(items, summary, at) && SummarySorted(summary)
  {
    var groups, order := GroupItems(items);
    summary, at := [], [];
    for n := 0 to |order|
      invariant SummaryAt(items, summary, at) && multiset(at) == multiset(order[..n])
    {
      GroupsRollUp(items, order[n]);
      assert order[n] in order;
      assert order[..n + 1] == order[..n] + [order[n]];
      summary, at := InsertGroup(items, summary, at, order[n], groups[order[n]]);
    }
    assert order[..|order|] == order;
    SameElementsOnce(at, order);
  }

  datatype Result = Result(summary: seq<SummaryChange>, details: seq<Detail>)

  /** The changelog of a diff; None if an item raises. */
  method BuildChangelog(items: seq<DiffItem>)
      returns (result: Option<Result>, ghost blocks: seq<seq<Detail>>, ghost at: seq<seq<string>>)
    ensures result.None? <==> exists n :: 0 <= n < |items| && IsMalformed(items[n])
    ensures result.Some? ==> BlocksOf(items, blocks) && result.value.details == SortByPath(Flatten(blocks))
    ensures result.Some? ==> SummaryOf(items, result.value.summary, at) && SummarySorted(result.value.summary)
  {
    var details;
    details, blocks := CollectDetails(items);
    var summary;
    summary, at := SummarizeGroups(items);
    if details.None? {
      return None, blocks, at;
    }
    return Some(Result(summary, SortByPath(details.value))), blocks, at;
  }

  // ---------------------------------------------------------------- The order of paths

  /** Paths are ordered by their first different character, and a path comes before what continues it. */
  lemma {:induction false} PathsAreOrdered(common: string, a: string, b: string)
    requires a != "" && b != "" && a[0] < b[0]
    ensures PathLeq(common + a, common + b) && !PathLeq(common + b, common + a)
    ensures PathLeq(common, common + a) && !PathLeq(common + a, common)
  {
    if common == "" {
      assert common + a == a && common + b == b;
    } else {
      var rest := common[1..];
      assert (common + a)[1..] == rest + a && (common + b)[1..] == rest + b;
      PathsAreOrdered(rest, a, b);
    }
  }

  /** A dict that came or went is expanded, in a list as well; one that reads as an update is not. */
  lemma DictsAreExpanded(it: DiffItem)
    ensures IsElementItem(it) <==>
      && (it.kind == ItemAdded || it.kind == ItemRemoved || it.kind == IterableAdded || it.kind == IterableRemoved)
      && it.payload.Obj? && "old_value" !in it.payload.fields
  {
  }
}
