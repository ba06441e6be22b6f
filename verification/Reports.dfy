/**
 * The breaking-change report of two contracts: their changelog, graded by the default rules.
 */
module Reports {
  import opened Wrappers
  import opened JsonTrees
  import opened Breaking
  import opened QualityRules
  import opened Rules
  import opened Changelog
  import opened Detector
  import opened SummaryTheorems

  /** Some entry is an error. */
  predicate IsBreaking(entries: seq<BreakingChangeEntry>)
    reads entries
  {
    exists k :: 0 <= k < |entries| && entries[k].level == Error
  }

  predicate ShowsAnError(summary: seq<SummaryEntry>) {
    exists n :: 0 <= n < |summary| && summary[n].level == Error
  }

  lemma ErrorsAreSummarized(
      host: Host, items: seq<DiffItem>, result: Changelog.Result, blocks: seq<seq<Detail>>, at: seq<seq<string>>,
      perspective: Perspective, before: Json, after: Json)
    requires IsChangelog(items, result, blocks, at) && (forall n :: 0 <= n < |items| ==> BelowRoot(items[n]))
    requires ClassifyAll(DefaultRules(host), Entries(host, result.details), perspective, before, after).Some?
    ensures var grades := ClassifyAll(DefaultRules(host), Entries(host, result.details), perspective, before, after);
      var finals := Finals(grades.value);
      ShowsAnError(Summary(SummaryEntries(result.summary), finals)) <==> exists g :: g in finals && g.level == Error
  {
    RunSummaryLosesNoGrade(host, DefaultRules(host), items, result, blocks, at, perspective, before, after, Error);
    NothingAboveError();
  }

  lemma NothingAboveError()
    ensures forall level :: LevelOrder(level) >= LevelOrder(Error) <==> level == Error
  {
  }

  /**
   * The report on a diff; None if the changelog or a rule raises. It holds the grade of every
   * detail of the changelog, and its summary shows an error exactly if the change is breaking.
   */
  method GradeChanges(host: Host, items: seq<DiffItem>, perspective: Perspective, before: Json, after: Json)
      returns (report: Option<Report>, ghost result: Changelog.Result, ghost blocks: seq<seq<Detail>>,
               ghost at: seq<seq<string>>)
    requires forall n :: 0 <= n < |items| ==> BelowRoot(items[n])
    ensures (exists n :: 0 <= n < |items| && IsMalformed(items[n])) ==> report.None?
    ensures !(exists n :: 0 <= n < |items| && IsMalformed(items[n])) ==>
      && IsChangelog(items, result, blocks, at)
      && var grades := ClassifyAll(DefaultRules(host), Entries(host, result.details), perspective, before, after);
         (report.Some? <==> grades.Some?) && (report.Some? ==> Views(report.value.entries) == Finals(grades.value))
    ensures report.Some? ==> fresh(report.value.entries)
    ensures report.Some? ==> (IsBreaking(report.value.entries) <==> ShowsAnError(report.value.summary))
  {
    var changelog;
    changelog, blocks, at := BuildChangelog(items);
    if changelog.None? {
      return None, Changelog.Result([], []), blocks, at;
    }
    result := changelog.value;
    var entries := Entries(host, changelog.value.details);
    report := Detect(DefaultRules(host), entries, SummaryEntries(changelog.value.summary), perspective, before, after);
    if report.Some? {
      ErrorsAreSummarized(host, items, result, blocks, at, perspective, before, after);
      BreakingMeansAnError(report.value.entries);
    }
  }

  lemma BreakingMeansAnError(entries: seq<BreakingChangeEntry>)
    ensures IsBreaking(entries) <==> exists g :: g in Views(entries) && g.level == Error
  {
    if k :| 0 <= k < |entries| && entries[k].level == Error {
      assert Views(entries)[k].level == Error;
    }
    if g :| g in Views(entries) && g.level == Error {
      var k :| 0 <= k < |entries| && Views(entries)[k] == g;
      assert entries[k].level == Error;
    }
  }
}
