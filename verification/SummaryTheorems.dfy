/**
 * From the diff to the report: every change is found at or inside a summary entry, and the
 * summary of a whole run loses no grade.
 */
module SummaryTheorems {
  import opened Wrappers
  import opened JsonTrees
  import opened Breaking
  import opened Paths
  import opened QualityRules
  import opened Rules
  import opened Changelog
  import opened Detector
  import opened DetectorTheorems

  /** A finished changelog of a diff. */
  ghost predicate IsChangelog(items: seq<DiffItem>, result: Result, blocks: seq<seq<Detail>>, at: seq<seq<string>>) {
    && BlocksOf(items, blocks) && result.details == SortByPath(Flatten(blocks))
    && SummaryOf(items, result.summary, at)
  }

  /** Diff items lie below the root, and no top-level key is empty or starts with a dot. */
  ghost predicate BelowRoot(it: DiffItem) {
    it.segs != [] && it.segs[0] != "" && it.segs[0][0] != '.'
  }

  lemma {:induction false} FlattenHas(blocks: seq<seq<Detail>>, d: Detail)
    ensures d in Flatten(blocks) <==> exists n :: 0 <= n < |blocks| && d in blocks[n]
  {
    if blocks != [] {
      var front, last := blocks[..|blocks| - 1], blocks[|blocks| - 1];
      FlattenHas(front, d);
      if d in Flatten(front) {
        var n :| 0 <= n < |front| && d in front[n];
        assert d in blocks[n];
      }
      if n :| 0 <= n < |blocks| && d in blocks[n] {
        assert n < |front| ==> d in front[n];
      }
    }
  }

  /** The details are the entries of the items, one block each. */
  lemma DetailsAreOfItems(
      items: seq<DiffItem>, result: Result, blocks: seq<seq<Detail>>, at: seq<seq<string>>, d: Detail)
    requires IsChangelog(items, result, blocks, at)
    ensures d in result.details <==> exists n :: 0 <= n < |items| && d in blocks[n]
  {
    SortByPathSorts(Flatten(blocks));
    FlattenHas(blocks, d);
    assert d in result.details <==> d in multiset(result.details);
    assert d in Flatten(blocks) <==> d in multiset(Flatten(blocks));
  }

  lemma JoinInside(segs: seq<string>, more: seq<string>)
    requires segs != []
    ensures AtOrInside(Join(segs + more), Join(segs))
  {
    if more == [] {
      assert segs + more == segs;
    } else {
      JoinAppend(segs, more);
    }
  }

  lemma {:induction false} JoinHead(segs: seq<string>)
    requires segs != [] && segs[0] != "" && segs[0][0] != '.'
    ensures NoLeadingDot(Join(segs))
  {
  }

  lemma OwnEntryUnderDisplay(it: DiffItem)
    requires BelowRoot(it) && TypeOf(it.kind).Some? && !IsMalformed(it)
    ensures AtOrInside(OwnEntry(it).path, Join(DisplaySegs(it))) && NoLeadingDot(OwnEntry(it).path)
  {
    JoinHead(it.segs);
    if IsIterable(it.kind) && it.payload.Text? {
      JoinInside(it.segs, [it.payload.text]);
      JoinHead(it.segs + [it.payload.text]);
    } else {
      assert OwnEntry(it).path == Join(it.segs);
      var shown := DisplaySegs(it);
      if shown != it.segs {
        var last := [it.segs[|it.segs| - 1]];
        assert it.segs == shown + last;
        JoinInside(shown, last);
      }
    }
  }

  lemma NodePath(base: seq<string>, fields: Dict, kind: ChangeType, keys: seq<string>)
    requires IsNode(fields, keys)
    ensures NodeEntry(base, fields, kind, keys).path == Join(base + keys)
  {
  }

  lemma NodeUnderElement(it: DiffItem, keys: seq<string>)
    requires BelowRoot(it) && TypeOf(it.kind).Some? && IsElementItem(it) && IsNode(it.payload.fields, keys)
    ensures var d := NodeEntry(it.segs, it.payload.fields, TypeOf(it.kind).value, keys);
            AtOrInside(d.path, Join(DisplaySegs(it))) && NoLeadingDot(d.path)
  {
    NodePath(it.segs, it.payload.fields, TypeOf(it.kind).value, keys);
    assert DisplaySegs(it) == it.segs;
    JoinInside(it.segs, keys);
    JoinHead(it.segs + keys);
  }

  /** The entries of an item behind its own are those of nodes below it. */
  lemma LaterEntryIsANode(it: DiffItem, entries: seq<Detail>, k: nat) returns (keys: seq<string>)
    requires DetailsOf(it, entries) && 0 < k < |entries|
    ensures IsElementItem(it) && IsNode(it.payload.fields, keys)
    ensures entries[k] == NodeEntry(it.segs, it.payload.fields, TypeOf(it.kind).value, keys)
  {
    var below := entries[1..];
    assert entries[k] == below[k - 1];
    var at :| ExpandsTo(it.segs, it.payload.fields, TypeOf(it.kind).value, below, at);
    keys := at[k - 1];
  }

  /** And every node has its entry. */
  lemma FindNode(
      base: seq<string>, fields: Dict, kind: ChangeType, below: seq<Detail>, keys: seq<string>) returns (n: nat)
    requires Expands(base, fields, kind, below)
    requires IsNode(fields, keys)
    ensures n < |below| && below[n] == NodeEntry(base, fields, kind, keys)
  {
    var at :| ExpandsTo(base, fields, kind, below, at);
    assert keys in at;
    n :| n < |at| && at[n] == keys;
  }

  /** Every entry of an item lies at or inside the place where the summary reports the item. */
  lemma EntryUnderDisplay(it: DiffItem, entries: seq<Detail>, k: nat)
    requires BelowRoot(it) && DetailsOf(it, entries) && k < |entries|
    ensures AtOrInside(entries[k].path, Join(DisplaySegs(it))) && NoLeadingDot(entries[k].path)
  {
    if k == 0 {
      OwnEntryUnderDisplay(it);
    } else {
      var keys := LaterEntryIsANode(it, entries, k);
      NodeUnderElement(it, keys);
    }
  }

  lemma ReportedSomewhere(items: seq<DiffItem>, n: nat)
    requires n < |items| && TypeOf(items[n].kind).Some?
    ensures DisplaySegs(items[n]) in GroupsOf(items)
  {
    assert ReportedAs(items, DisplaySegs(items[n]), TypeOf(items[n].kind).value);
    GroupsRollUp(items, DisplaySegs(items[n]));
  }

  /** Every detail lies at or inside some summary change. */
  lemma EveryDetailIsSummarized(
      items: seq<DiffItem>, result: Result, blocks: seq<seq<Detail>>, at: seq<seq<string>>, d: Detail)
    requires IsChangelog(items, result, blocks, at) && (forall n :: 0 <= n < |items| ==> BelowRoot(items[n]))
    requires d in result.details
    ensures NoLeadingDot(d.path)
    ensures exists n :: 0 <= n < |result.summary| && AtOrInside(d.path, result.summary[n].path)
  {
    DetailsAreOfItems(items, result, blocks, at, d);
    var n :| 0 <= n < |items| && d in blocks[n];
    var p: nat :| p < |blocks[n]| && blocks[n][p] == d;
    EntryUnderDisplay(items[n], blocks[n], p);
    ReportedSomewhere(items, n);
    var k :| 0 <= k < |at| && at[k] == DisplaySegs(items[n]);
    assert result.summary[k].path == Join(at[k]);
  }

  /** Every summary change has a detail at or inside it, so none falls back to an empty bucket. */
  lemma EverySummaryHasADetail(
      items: seq<DiffItem>, result: Result, blocks: seq<seq<Detail>>, at: seq<seq<string>>, k: nat)
    requires IsChangelog(items, result, blocks, at) && (forall n :: 0 <= n < |items| ==> BelowRoot(items[n]))
    requires k < |result.summary|
    ensures exists d :: d in result.details && AtOrInside(d.path, result.summary[k].path)
  {
    assert at[k] in at;
    GroupsRollUp(items, at[k]);
    var kind: ChangeType :| ReportedAs(items, at[k], kind);
    assert ReportedAs(items, at[k], kind);
    var n: nat :| n < |items| && TypeOf(items[n].kind) == Some(kind) && DisplaySegs(items[n]) == at[k];
    var d := blocks[n][0];
    EntryUnderDisplay(items[n], blocks[n], 0);
    DetailsAreOfItems(items, result, blocks, at, d);
  }

  // ---------------------------------------------------------------- A whole run

  function TextOf(host: Host, value: Option<Json>): Option<string> {
    if value.None? || value.value == Null then None else Some(host.str(value.value))
  }

  /** The entries as the changelog of two contracts shows them. */
  function Entries(host: Host, details: seq<Detail>): (entries: seq<ChangelogEntry>)
    ensures |entries| == |details|
  {
    seq(|details|, n requires 0 <= n < |details| =>
      ChangelogEntry(details[n].path, details[n].kind, TextOf(host, details[n].oldValue),
        TextOf(host, details[n].newValue)))
  }

  function SummaryEntries(summary: seq<SummaryChange>): (entries: seq<ChangelogEntry>)
    ensures |entries| == |summary|
  {
    seq(|summary|, n requires 0 <= n < |summary| => ChangelogEntry(summary[n].path, summary[n].kind, None, None))
  }

  lemma {:induction false} GradesKeepPaths(
      rules: seq<Rule>, entries: seq<ChangelogEntry>, perspective: Perspective, before: Json, after: Json)
    requires ClassifyAll(rules, entries, perspective, before, after).Some?
    ensures var grades := ClassifyAll(rules, entries, perspective, before, after).value;
      |grades| == |entries| && forall k :: 0 <= k < |entries| ==>
        Some(grades[k]) == Classify(rules, entries[k], perspective, before, after)
        && grades[k].path == entries[k].path && grades[k].kind == entries[k].kind
  {
    if entries != [] {
      GradesKeepPaths(rules, entries[..|entries| - 1], perspective, before, after);
    }
  }

  /**
   * The summary of a run reaches a level above Info exactly when some of its entries does: from the
   * diff to the report, no grade is lost and none is invented.
   */
  lemma RunSummaryLosesNoGrade(
      host: Host, rules: seq<Rule>, items: seq<DiffItem>, result: Result, blocks: seq<seq<Detail>>,
      at: seq<seq<string>>,
      perspective: Perspective, before: Json, after: Json, level: Level)
    requires IsChangelog(items, result, blocks, at) && (forall n :: 0 <= n < |items| ==> BelowRoot(items[n]))
    requires ClassifyAll(rules, Entries(host, result.details), perspective, before, after).Some? && level != Info
    ensures var finals := Finals(ClassifyAll(rules, Entries(host, result.details), perspective, before, after).value);
      var summary := Summary(SummaryEntries(result.summary), finals);
      (exists n :: 0 <= n < |summary| && LevelOrder(summary[n].level) >= LevelOrder(level))
        <==> (exists g :: g in finals && LevelOrder(g.level) >= LevelOrder(level))
  {
    var entries := Entries(host, result.details);
    var finals := Finals(ClassifyAll(rules, entries, perspective, before, after).value);
    GradesKeepPaths(rules, entries, perspective, before, after);
    var summary := SummaryEntries(result.summary);
    forall k | 0 <= k < |finals|
      ensures NoLeadingDot(finals[k].path)
      ensures exists n :: 0 <= n < |summary| && AtOrInside(finals[k].path, summary[n].path)
    {
      assert finals[k].path == result.details[k].path;
      EveryDetailIsSummarized(items, result, blocks, at, result.details[k]);
      var n :| 0 <= n < |result.summary| && AtOrInside(finals[k].path, result.summary[n].path);
      assert summary[n].path == result.summary[n].path;
    }
    SummaryLosesNoGrade(summary, finals, level);
  }

  // ---------------------------------------------------------------- Where the summary shows an item

  /** A scalar that came, went or changed. */
  ghost predicate IsFieldChange(it: DiffItem) {
    || ((it.kind == ItemAdded || it.kind == ItemRemoved) && !it.payload.Obj?)
    || ((it.kind == ValuesChanged || it.kind == TypeChanges) && exists v, w :: ReplacesField(it.payload, v, w))
  }

  ghost predicate ReplacesField(payload: Json, v: Json, w: Json) {
    payload == Obj(map["old_value" := v, "new_value" := w]) && !v.Obj? && !w.Obj?
  }

  lemma ShownItem(items: seq<DiffItem>, n: nat, segs: seq<string>)
    requires n < |items| && TypeOf(items[n].kind).Some? && DisplaySegs(items[n]) == segs
    ensures segs in GroupsOf(items)
  {
    GroupsRollUp(items, segs);
    assert ReportedAs(items, segs, TypeOf(items[n].kind).value);
  }

  /** A changed field is summarized with the element it belongs to, and at the top level by itself. */
  lemma FieldsAreSummarizedWithTheirElement(items: seq<DiffItem>, n: nat, element: seq<string>, field: string)
    requires n < |items| && IsFieldChange(items[n]) && items[n].segs == element + [field]
    ensures (if element == [] then [field] else element) in GroupsOf(items)
  {
    assert (element + [field])[..|element|] == element;
    if items[n].kind == ValuesChanged || items[n].kind == TypeChanges {
      var v, w :| ReplacesField(items[n].payload, v, w);
    }
    assert [] + [field] == [field];
    ShownItem(items, n, if element == [] then [field] else element);
  }

  /** A text that came to a list or left it is summarized with the list, and a whole element by itself. */
  lemma ElementsAreSummarizedByThemselves(items: seq<DiffItem>, n: nat)
    requires n < |items| && (IsElementItem(items[n]) || (IsIterable(items[n].kind) && items[n].payload.Text?))
    ensures items[n].segs in GroupsOf(items)
  {
    ShownItem(items, n, items[n].segs);
  }

  /** A value that is absent or null is not shown, any other one as its text. */
  lemma ValuesAreShown(host: Host, value: Json)
    ensures TextOf(host, None) == TextOf(host, Some(Null)) == None
    ensures value != Null ==> TextOf(host, Some(value)) == Some(host.str(value))
  {
  }

  /** A scalar that became a dict, or a dict that became one, is summarized by itself. */
  lemma ReplacedDictsAreSummarizedByThemselves(items: seq<DiffItem>, n: nat, v: Json, w: Json)
    requires n < |items| && (items[n].kind == ValuesChanged || items[n].kind == TypeChanges) && (v.Obj? || w.Obj?)
    requires items[n].payload == Obj(map["old_value" := v, "new_value" := w])
    ensures DisplaySegs(items[n]) == items[n].segs && items[n].segs in GroupsOf(items)
  {
    ShownItem(items, n, items[n].segs);
  }
}
