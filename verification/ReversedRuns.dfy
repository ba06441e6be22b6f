/**
 * The run of the reversed comparison: the reversed items are a diff the other way round, and what its
 * entries mean to a producer is what the entries of the run mean to a consumer.
 */
module ReversedRuns {
  import opened Wrappers
  import opened JsonTrees
  import opened Breaking
  import opened Paths
  import opened QualityRules
  import opened Rules
  import opened Changelog
  import opened Detector
  import opened SummaryTheorems
  import opened Duality
  import opened Diffs
  import opened Runs

  // ---------------------------------------------------------------- The reversed diff

  function ReverseDiffKind(kind: DiffKind): DiffKind {
    match kind
    case ItemAdded => ItemRemoved
    case ItemRemoved => ItemAdded
    case IterableAdded => IterableRemoved
    case IterableRemoved => IterableAdded
    case _ => kind
  }

  function SwapValues(payload: Json): Json {
    Obj(map["old_value" := Get(Fields(payload), "new_value"), "new_value" := Get(Fields(payload), "old_value")])
  }

  predicate IsUpdate(kind: DiffKind) { kind.ValuesChanged? || kind.TypeChanges? }

  /** What the reversed comparison reports where this one reports `it`. */
  function ReverseItem(it: DiffItem): DiffItem {
    DiffItem(ReverseDiffKind(it.kind), it.segs, if IsUpdate(it.kind) then SwapValues(it.payload) else it.payload)
  }

  function ReverseItems(items: seq<DiffItem>): (r: seq<DiffItem>)
    ensures |r| == |items| && forall n :: 0 <= n < |items| ==> r[n] == ReverseItem(items[n])
  {
    seq(|items|, n requires 0 <= n < |items| => ReverseItem(items[n]))
  }

  lemma {:induction false} DiffersEitherWay(a: Option<Json>, b: Option<Json>)
    requires Differs(a, b)
    ensures Differs(b, a)
    decreases a.GetOr(Null), 1
  {
    if a.Some? && a.value.Obj? && b.Some? && b.value.Obj? {
      var f, g := a.value.fields, b.value.fields;
      assert a == Some(Obj(f)) && b == Some(Obj(g));
      var k :| DiffersAt(f, g, k);
      if k in f && k in g {
        DiffersEitherWay(Some(f[k]), Some(g[k]));
      }
      assert DiffersAt(g, f, k);
    } else if a.Some? && a.value.Arr? && b.Some? && b.value.Arr? {
      assert a == Some(Arr(a.value.items)) && b == Some(Arr(b.value.items));
      ItemsDifferEitherWay(a.value.items, b.value.items);
    }
  }

  lemma {:induction false} ItemsDifferEitherWay(a: seq<Json>, b: seq<Json>)
    requires !SameItems(a, b)
    ensures !SameItems(b, a)
    decreases Arr(a), 0
  {
    forall n, m | 0 <= n < |a| && 0 <= m < |b| && Differs(Some(a[n]), Some(b[m]))
      ensures Differs(Some(b[m]), Some(a[n]))
    {
      DiffersEitherWay(Some(a[n]), Some(b[m]));
    }
    if n :| 0 <= n < |a| && !IsLikeOne(a[n], b) {
      assert !HasOneLike(b, a[n]);
    } else {
      var m :| 0 <= m < |b| && !HasOneLike(a, b[m]);
      assert !IsLikeOne(b[m], a);
    }
  }

  lemma PartsEitherWay(before: Json, after: Json, segs: seq<string>)
    requires Parts(before, after, segs)
    ensures Parts(after, before, segs)
  {
    DiffersEitherWay(At(before, segs), At(after, segs));
  }

  lemma ReplacesReversed(it: DiffItem, v: Json, w: Json)
    requires Replaces(it, v, w)
    ensures Replaces(ReverseItem(it), w, v)
  {
  }

  lemma ReportsReversed(it: DiffItem, before: Option<Json>, after: Option<Json>)
    requires Reports(it, before, after)
    ensures Reports(ReverseItem(it), after, before)
  {
    if before.Some? && after.Some? {
      ReplacesReversed(it, before.value, after.value);
    }
  }

  lemma WithinReversed(it: DiffItem, keys: seq<string>, before: Json, after: Json)
    requires ReportsWithin(it, keys, before, after)
    ensures ReportsWithin(ReverseItem(it), keys, after, before)
  {
    if IsUpdate(it.kind) {
      var v, w :| Replaces(it, v, w) && Stands(before, keys, v) && Stands(after, keys, w);
      ReplacesReversed(it, v, w);
    }
  }

  lemma ReportReversed(it: DiffItem, before: Json, after: Json, segs: seq<string>)
    requires ReportsAt(it, before, after, segs)
    ensures ReportsAt(ReverseItem(it), after, before, segs)
  {
    if BothLists(before, after, segs) {
      WithinReversed(it, it.segs[|segs|..], At(before, segs).value, At(after, segs).value);
    } else {
      ReportsReversed(it, At(before, segs), At(after, segs));
    }
  }

  /** The reversed items are a diff of the versions the other way round. */
  lemma DiffReversed(items: seq<DiffItem>, before: Json, after: Json)
    requires IsDiff(items, before, after)
    ensures IsDiff(ReverseItems(items), after, before)
  {
    var back := ReverseItems(items);
    forall segs | Parts(after, before, segs)
      ensures SomeReport(back, after, before, segs)
    {
      PartsEitherWay(after, before, segs);
      assert SomeReport(items, before, after, segs);
      var n :| 0 <= n < |items| && ReportsAt(items[n], before, after, segs);
      ReportReversed(items[n], before, after, segs);
    }
    forall n | 0 <= n < |back| && back[n].kind != OtherKind
      ensures PartsFor(back[n], after, before)
    {
      assert PartsFor(items[n], before, after);
      var segs :| Parts(before, after, segs) && ReportsAt(items[n], before, after, segs);
      PartsEitherWay(before, after, segs);
      ReportReversed(items[n], before, after, segs);
    }
  }

  // ---------------------------------------------------------------- The reversed entries

  function ReverseDetail(d: Detail): Detail { Detail(d.path, ReverseKind(d.kind), d.newValue, d.oldValue) }

  /** The payload reads as an update exactly if the item is one. */
  predicate ReadsAsItIs(it: DiffItem) {
    if IsUpdate(it.kind) then HasOldValue(it.payload) && "new_value" in it.payload.fields else !HasOldValue(it.payload)
  }

  lemma OwnEntryReversed(it: DiffItem)
    requires TypeOf(it.kind).Some? && ReadsAsItIs(it)
    ensures !IsMalformed(it) && !IsMalformed(ReverseItem(it)) && TypeOf(ReverseItem(it).kind).Some?
    ensures OwnEntry(ReverseItem(it)) == ReverseDetail(OwnEntry(it))
    ensures IsElementItem(ReverseItem(it)) == IsElementItem(it)
  {
  }

  lemma NodeReversed(base: seq<string>, fields: Dict, kind: ChangeType, keys: seq<string>)
    requires IsNode(fields, keys) && !kind.Updated?
    ensures NodeEntry(base, fields, ReverseKind(kind), keys) == ReverseDetail(NodeEntry(base, fields, kind, keys))
  {
  }

  /** The reversed item has the reversed entries. */
  lemma EntryReversed(it: DiffItem, entries: seq<Detail>, back: seq<Detail>, p: nat)
    requires ReadsAsItIs(it) && DetailsOf(it, entries) && DetailsOf(ReverseItem(it), back) && p < |entries|
    ensures ReverseDetail(entries[p]) in back
  {
    OwnEntryReversed(it);
    if p > 0 {
      var kind := TypeOf(it.kind).value;
      var keys := LaterEntryIsANode(it, entries, p);
      NodeReversed(it.segs, it.payload.fields, kind, keys);
      var n := FindNode(it.segs, it.payload.fields, ReverseKind(kind), back[1..], keys);
      assert back[n + 1] == back[1..][n];
    }
  }

  // ---------------------------------------------------------------- The reversed run

  /** Only updates hold a key `old_value`. */
  ghost predicate OnlyUpdatesReadAsSuch(items: seq<DiffItem>) {
    forall n :: 0 <= n < |items| && TypeOf(items[n].kind).Some? && !IsUpdate(items[n].kind) ==>
      !HasOldValue(items[n].payload)
  }

  /** `back` is a run of the reversed comparison. */
  ghost predicate IsReversal(forth: Run, back: Run) {
    && IsRun(forth) && IsRun(back) && back.host == forth.host
    && back.before == forth.after && back.after == forth.before && back.items == ReverseItems(forth.items)
    && OnlyUpdatesReadAsSuch(forth.items)
  }

  /** The payload holds an old and a new value. */
  ghost predicate HoldsTwoValues(it: DiffItem) { exists v, w :: Replaces(it, v, w) }

  lemma WithinHoldsTwo(it: DiffItem, keys: seq<string>, before: Json, after: Json)
    requires IsUpdate(it.kind) && ReportsWithin(it, keys, before, after)
    ensures HoldsTwoValues(it)
  {
  }

  lemma ReportHoldsTwo(it: DiffItem, before: Json, after: Json, segs: seq<string>)
    requires IsUpdate(it.kind) && ReportsAt(it, before, after, segs)
    ensures HoldsTwoValues(it)
  {
    if BothLists(before, after, segs) {
      WithinHoldsTwo(it, it.segs[|segs|..], At(before, segs).value, At(after, segs).value);
    } else {
      assert Replaces(it, At(before, segs).value, At(after, segs).value);
    }
  }

  lemma UpdatesReplace(items: seq<DiffItem>, before: Json, after: Json, n: nat)
    requires IsDiff(items, before, after) && n < |items| && IsUpdate(items[n].kind)
    ensures HoldsTwoValues(items[n])
  {
    assert PartsFor(items[n], before, after);
    var segs :| Parts(before, after, segs) && ReportsAt(items[n], before, after, segs);
    ReportHoldsTwo(items[n], before, after, segs);
  }

  lemma SwappedTwice(it: DiffItem)
    requires IsUpdate(it.kind) ==> HoldsTwoValues(it)
    ensures ReverseItem(ReverseItem(it)) == it
  {
  }

  /** The reversal of a reversal is the run itself. */
  lemma ReversalIsMutual(forth: Run, back: Run)
    requires IsReversal(forth, back)
    ensures IsReversal(back, forth)
  {
    ItemsReversedTwice(forth.items, forth.before, forth.after);
    ReversedReadAsSuch(forth.items);
  }

  lemma ItemsReversedTwice(items: seq<DiffItem>, before: Json, after: Json)
    requires IsDiff(items, before, after)
    ensures ReverseItems(ReverseItems(items)) == items
  {
    forall n | 0 <= n < |items|
      ensures ReverseItem(ReverseItem(items[n])) == items[n]
    {
      if IsUpdate(items[n].kind) {
        UpdatesReplace(items, before, after, n);
      }
      SwappedTwice(items[n]);
    }
  }

  lemma ReversedReadAsSuch(items: seq<DiffItem>)
    requires OnlyUpdatesReadAsSuch(items)
    ensures OnlyUpdatesReadAsSuch(ReverseItems(items))
  {
  }

  lemma ItemsReadAsTheyAre(items: seq<DiffItem>, before: Json, after: Json, n: nat)
    requires IsDiff(items, before, after) && OnlyUpdatesReadAsSuch(items) && n < |items| && TypeOf(items[n].kind).Some?
    ensures ReadsAsItIs(items[n])
  {
    if IsUpdate(items[n].kind) {
      UpdatesReplace(items, before, after, n);
    }
  }

  lemma BlockOfDetail(r: Run, d: Detail) returns (n: nat, p: nat)
    requires IsChangelog(r.items, r.result, r.blocks, r.at) && d in r.result.details
    ensures n < |r.items| == |r.blocks| && p < |r.blocks[n]| && r.blocks[n][p] == d
    ensures TypeOf(r.items[n].kind).Some? && DetailsOf(r.items[n], r.blocks[n])
  {
    DetailsAreOfItems(r.items, r.result, r.blocks, r.at, d);
    n :| 0 <= n < |r.items| && d in r.blocks[n];
    p :| p < |r.blocks[n]| && r.blocks[n][p] == d;
  }

  lemma ReversedDetailIsListed(forth: Run, back: Run, d: Detail)
    requires IsReversal(forth, back) && d in forth.result.details
    ensures ReverseDetail(d) in back.result.details
  {
    var n, p := BlockOfDetail(forth, d);
    ItemsReadAsTheyAre(forth.items, forth.before, forth.after, n);
    OwnEntryReversed(forth.items[n]);
    assert back.items[n] == ReverseItem(forth.items[n]) && DetailsOf(back.items[n], back.blocks[n]);
    EntryReversed(forth.items[n], forth.blocks[n], back.blocks[n], p);
    DetailsAreOfItems(back.items, back.result, back.blocks, back.at, ReverseDetail(d));
  }

  /** Every entry has its reverse among the entries of the reversed run. */
  lemma ReversedEntryIsListed(forth: Run, back: Run, k: nat) returns (j: nat)
    requires IsReversal(forth, back) && k < |forth.grades|
    ensures |forth.grades| == |forth.result.details| && |back.grades| == |back.result.details|
    ensures j < |back.grades| && EntryOf(back, j) == Reverse(EntryOf(forth, k))
  {
    GradeOfEntry(forth, k);
    var d := forth.result.details[k];
    ReversedDetailIsListed(forth, back, d);
    j :| 0 <= j < |back.result.details| && back.result.details[j] == ReverseDetail(d);
    GradeOfEntry(back, j);
  }

  // ---------------------------------------------------------------- Grades

  lemma GradesMirror(forth: Run, back: Run, k: nat) returns (j: nat)
    requires IsReversal(forth, back) && forth.perspective == Consumer && back.perspective == Producer
    requires k < |forth.grades|
    ensures |forth.grades| == |forth.result.details| && j < |back.grades|
    ensures Mirrors(forth.host, EntryOf(forth, k), forth.before, forth.after, forth.grades[k], back.grades[j])
  {
    j := ReversedEntryIsListed(forth, back, k);
    GradeOfEntry(forth, k);
    GradeOfEntry(back, j);
    ClassifyMirrors(forth.host, EntryOf(forth, k), forth.before, forth.after, forth.grades[k], back.grades[j]);
  }

  lemma IdentityIsKept(forth: Run, back: Run, k: nat) returns (j: nat)
    requires IsReversal(forth, back) && k < |forth.grades|
    ensures j < |back.grades| && back.grades[j].path == forth.grades[k].path
    ensures IsElement(back.grades[j]) == IsElement(forth.grades[k])
  {
    j := ReversedEntryIsListed(forth, back, k);
    GradeOfEntry(forth, k);
    GradeOfEntry(back, j);
    VerdictsOfReverse(forth.host, EntryOf(forth, k), forth.before, forth.after);
  }

  lemma SilencedToo(forth: Run, back: Run, path: string)
    requires IsReversal(forth, back) && Silenced(forth.grades, path)
    ensures Silenced(back.grades, path)
  {
    var k: nat :| k < |forth.grades| && IsElement(forth.grades[k]) && Inside(path, forth.grades[k].path);
    var j := IdentityIsKept(forth, back, k);
  }

  /**
   * Consumer grades of v1 -> v2 are producer grades of v2 -> v1: whatever a run reports of an entry that a
   * rule which treats the versions alike has graded, any run of the reversed diff reports mirrored.
   */
  lemma ReversedRunMirrors(forth: Run, back: Run, k: nat) returns (j: nat)
    requires IsReversal(forth, back) && forth.perspective == Consumer && back.perspective == Producer
    requires k < |forth.grades|
    ensures |forth.grades| == |forth.result.details| && j < |back.grades|
    ensures GradedAlike(forth.host, EntryOf(forth, k), forth.before, forth.after) ==>
      && Final(back.grades, back.grades[j]) == MirrorGrade(Final(forth.grades, forth.grades[k]))
      && Final(back.grades, back.grades[j]).level == Final(forth.grades, forth.grades[k]).level
  {
    j := GradesMirror(forth, back, k);
    ReversalIsMutual(forth, back);
    if Silenced(forth.grades, forth.grades[k].path) {
      SilencedToo(forth, back, forth.grades[k].path);
    }
    if Silenced(back.grades, forth.grades[k].path) {
      SilencedToo(back, forth, forth.grades[k].path);
    }
  }
}
