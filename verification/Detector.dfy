/**
 * Grading the entries of a changelog: classify each, silence what lies inside an added or
 * removed element, and roll the grades up into the summary.
 */
module Detector {
  import opened Wrappers
  import opened JsonTrees
  import opened Breaking
  import opened Paths
  import opened Rules

  /** The value of a graded entry. */
  datatype Grade = Grade(
    path: string, kind: ChangeType, level: Level, direction: Option<Direction>, ruleId: string,
    oldValue: Option<string>, newValue: Option<string>)

  function LevelOf(direction: Direction, perspective: Perspective): Level {
    match direction
    case Both => Error
    case Undetermined => Warning
    case Tightens => if perspective.Producer? then Error else Info
    case Loosens => if perspective.Consumer? then Error else Info
    case Untested => Info
  }

  function LevelOrder(level: Level): nat {
    match level
    case Info => 0
    case Warning => 1
    case Error => 2
  }

  /** The grade by the first rule that applies; None if a rule raises or none applies. */
  function Classify(
      rules: seq<Rule>, entry: ChangelogEntry, perspective: Perspective, before: Json, after: Json): Option<Grade> {
    match FirstVerdict(rules, entry, before, after)
    case Evaluates(ruleId, direction) =>
      var level := LevelOf(direction, perspective);
      Some(Grade(entry.path, entry.kind, level, Some(direction), ruleId, entry.oldValue, entry.newValue))
    case _ => None
  }

  // ---------------------------------------------------------------- Added and removed elements

  /** An added or removed element, which carries the grade for everything inside it. */
  predicate IsElement(g: Grade) {
    !g.kind.Updated? && g.ruleId != FALLBACK_ID
  }

  predicate Silenced(grades: seq<Grade>, path: string) {
    exists k :: 0 <= k < |grades| && IsElement(grades[k]) && Inside(path, grades[k].path)
  }

  function Silence(g: Grade): Grade { g.(direction := None, level := Info) }

  /** The entry as reported: silenced if it lies inside an added or removed element. */
  function Final(grades: seq<Grade>, g: Grade): Grade {
    if Silenced(grades, g.path) then Silence(g) else g
  }

  function Finals(grades: seq<Grade>): (finals: seq<Grade>)
    ensures |finals| == |grades|
  {
    seq(|grades|, k requires 0 <= k < |grades| => Final(grades, grades[k]))
  }

  // ---------------------------------------------------------------- The prefix index

  function Extend(prefix: string, segment: string): string {
    if prefix != "" then prefix + "." + segment else segment
  }

  /** The prefixes an entry is indexed under, starting from `prefix`. */
  function Prefixes(prefix: string, segments: seq<string>): seq<string>
    decreases segments
  {
    if segments == [] then []
    else [Extend(prefix, segments[0])] + Prefixes(Extend(prefix, segments[0]), segments[1..])
  }

  function Repeat<T>(x: T, n: nat): seq<T> {
    if n == 0 then [] else Repeat(x, n - 1) + [x]
  }

  function Count(prefixes: seq<string>, p: string): nat {
    if prefixes == [] then 0
    else Count(prefixes[..|prefixes| - 1], p) + (if prefixes[|prefixes| - 1] == p then 1 else 0)
  }

  /** How often an entry is indexed under `p`. */
  function Times(path: string, p: string): nat { Count(Prefixes("", Split(path)), p) }

  /** How the index collects entries under `p`: each as often as its path has the prefix. */
  function Collected(grades: seq<Grade>, p: string): seq<Grade> {
    if grades == [] then []
    else
      var last := grades[|grades| - 1];
      Collected(grades[..|grades| - 1], p) + Repeat(last, Times(last.path, p))
  }

  // ---------------------------------------------------------------- The summary

  datatype SummaryEntry = SummaryEntry(
    path: string, kind: ChangeType, level: Level, ruleId: string, oldValue: Option<string>, newValue: Option<string>)

  /** The first entry of the highest level. */
  function Highest(grades: seq<Grade>): Grade
    requires grades != []
  {
    if |grades| == 1 then grades[0]
    else
      var best := Highest(grades[..|grades| - 1]);
      var last := grades[|grades| - 1];
      if LevelOrder(last.level) > LevelOrder(best.level) then last else best
  }

  function Summarize(entry: ChangelogEntry, grades: seq<Grade>): SummaryEntry {
    if grades == [] then SummaryEntry(entry.path, entry.kind, Info, "summary-fallback", None, None)
    else
      var highest := Highest(grades);
      SummaryEntry(
        entry.path, entry.kind, highest.level, "summary:" + highest.ruleId, highest.oldValue, highest.newValue)
  }

  // ---------------------------------------------------------------- The detector

  class BreakingChangeEntry {
    const path: string
    const kind: ChangeType
    const ruleId: string
    const oldValue: Option<string>
    const newValue: Option<string>
    var level: Level
    var direction: Option<Direction>

    ghost function View(): Grade
      reads this
    {
      Grade(path, kind, level, direction, ruleId, oldValue, newValue)
    }

    constructor (g: Grade)
      ensures View() == g
    {
      path, kind, ruleId, oldValue, newValue := g.path, g.kind, g.ruleId, g.oldValue, g.newValue;
      level, direction := g.level, g.direction;
    }

    method Quiet()
      modifies this
      ensures View() == Silence(old(View()))
    {
      direction := None;
      level := Info;
    }
  }

  ghost function Views(entries: seq<BreakingChangeEntry>): (views: seq<Grade>)
    reads entries
    ensures |views| == |entries|
    ensures forall k :: 0 <= k < |entries| ==> views[k] == entries[k].View()
  {
    if entries == [] then []
    else Views(entries[..|entries| - 1]) + [entries[|entries| - 1].View()]
  }

  ghost predicate AllDistinct(entries: seq<BreakingChangeEntry>) {
    forall j, k :: 0 <= j < k < |entries| ==> entries[j] != entries[k]
  }

  /** The grades of all entries; None if one cannot be classified. */
  ghost function ClassifyAll(
      rules: seq<Rule>, entries: seq<ChangelogEntry>, perspective: Perspective, before: Json,
      after: Json): Option<seq<Grade>>
  {
    if entries == [] then Some([])
    else
      var n := |entries| - 1;
      var front, last := ClassifyAll(rules, entries[..n], perspective, before, after),
        Classify(rules, entries[n], perspective, before, after);
      if front.Some? && last.Some? then Some(front.value + [last.value]) else None
  }

  datatype Report = Report(summary: seq<SummaryEntry>, entries: seq<BreakingChangeEntry>)

  lemma ClassifyStep(
      rules: seq<Rule>, entries: seq<ChangelogEntry>, perspective: Perspective, before: Json, after: Json, k: nat)
    requires k < |entries| && ClassifyAll(rules, entries[..k], perspective, before, after).Some?
    ensures ClassifyAll(rules, entries[..k + 1], perspective, before, after) ==
      match Classify(rules, entries[k], perspective, before, after)
      case None => None
      case Some(g) => Some(ClassifyAll(rules, entries[..k], perspective, before, after).value + [g])
  {
    assert entries[..k + 1][..k] == entries[..k];
  }

  method AppendEntry(graded: seq<BreakingChangeEntry>, g: Grade) returns (more: seq<BreakingChangeEntry>)
    requires AllDistinct(graded)
    ensures |more| == |graded| + 1 && more == graded + [more[|graded|]] && fresh(more[|graded|]) && AllDistinct(more)
    ensures Views(more) == old(Views(graded)) + [g]
  {
    var e := new BreakingChangeEntry(g);
    more := graded + [e];
    ViewsSnoc(graded, e);
  }

  method ClassifyEntries(
      rules: seq<Rule>, entries: seq<ChangelogEntry>, perspective: Perspective, before: Json, after: Json)
      returns (result: Option<seq<BreakingChangeEntry>>)
    ensures result.Some? <==> ClassifyAll(rules, entries, perspective, before, after).Some?
    ensures result.Some? ==> fresh(result.value) && AllDistinct(result.value)
    ensures result.Some? ==> Views(result.value) == ClassifyAll(rules, entries, perspective, before, after).value
  {
    var graded: seq<BreakingChangeEntry> := [];
    for k := 0 to |entries|
      invariant fresh(graded) && AllDistinct(graded)
      invariant ClassifyAll(rules, entries[..k], perspective, before, after) == Some(Views(graded))
    {
      ClassifyStep(rules, entries, perspective, before, after, k);
      match Classify(rules, entries[k], perspective, before, after) {
        case None =>
          PrefixFails(rules, entries, perspective, before, after, k + 1);
          return None;
        case Some(g) =>
          graded := AppendEntry(graded, g);
      }
    }
    assert entries[..|entries|] == entries;
    return Some(graded);
  }

  lemma {:induction false} PrefixFails(
      rules: seq<Rule>, entries: seq<ChangelogEntry>, perspective: Perspective, before: Json, after: Json, k: nat)
    requires k <= |entries| && ClassifyAll(rules, entries[..k], perspective, before, after).None?
    ensures ClassifyAll(rules, entries, perspective, before, after).None?
  {
    if k == |entries| {
      assert entries[..k] == entries;
    } else {
      var n := |entries| - 1;
      assert entries[..n][..k] == entries[..k];
      PrefixFails(rules, entries[..n], perspective, before, after, k);
    }
  }

  predicate InsideAny(path: string, elements: set<string>) {
    exists element :: element in elements && Inside(path, element)
  }

  /** `elements` are the paths of the elements among the grades. */
  ghost predicate ElementsOf(elements: set<string>, grades: seq<Grade>) {
    forall path :: path in elements <==> exists k :: 0 <= k < |grades| && IsElement(grades[k]) && grades[k].path == path
  }

  /** An added or removed element carries the grade for everything inside it. */
  method SilenceInsideElements(entries: seq<BreakingChangeEntry>)
    requires AllDistinct(entries)
    modifies entries
    ensures Views(entries) == Finals(old(Views(entries)))
  {
    ghost var grades := Views(entries);
    var elements := set k | 0 <= k < |entries| && !entries[k].kind.Updated? && entries[k].ruleId != FALLBACK_ID ::
      entries[k].path;
    ElementPaths(entries, elements);
    for k := 0 to |entries|
      invariant forall n :: 0 <= n < k ==> entries[n].View() == Final(grades, grades[n])
      invariant forall n :: k <= n < |entries| ==> entries[n].View() == grades[n]
    {
      assert grades[k] == entries[k].View();
      ElementsSilence(elements, grades, grades[k].path);
      if InsideAny(entries[k].path, elements) {
        entries[k].Quiet();
      }
    }
  }

  lemma ElementPaths(entries: seq<BreakingChangeEntry>, elements: set<string>)
    requires elements == set k | 0 <= k < |entries| && !entries[k].kind.Updated? && entries[k].ruleId != FALLBACK_ID ::
      entries[k].path
    ensures ElementsOf(elements, Views(entries))
  {
    var grades := Views(entries);
    assert forall k :: 0 <= k < |grades| ==> grades[k] == entries[k].View();
  }

  lemma ElementsSilence(elements: set<string>, grades: seq<Grade>, path: string)
    requires ElementsOf(elements, grades)
    ensures InsideAny(path, elements) <==> Silenced(grades, path)
  {
    if Silenced(grades, path) {
      var k :| 0 <= k < |grades| && IsElement(grades[k]) && Inside(path, grades[k].path);
      assert grades[k].path in elements;
    }
  }

  type Index = map<string, seq<BreakingChangeEntry>>

  function Filed(index: Index, p: string): seq<BreakingChangeEntry> {
    if p in index then index[p] else []
  }

  /** `Collected`, of the entries themselves rather than of their values. */
  ghost function CollectedEntries(entries: seq<BreakingChangeEntry>, p: string): seq<BreakingChangeEntry> {
    if entries == [] then []
    else
      var last := entries[|entries| - 1];
      CollectedEntries(entries[..|entries| - 1], p) + Repeat(last, Times(last.path, p))
  }

  lemma {:induction false} CollectedViews(entries: seq<BreakingChangeEntry>, p: string)
    ensures Views(CollectedEntries(entries, p)) == Collected(Views(entries), p)
  {
    if entries != [] {
      var n, last := |entries| - 1, entries[|entries| - 1];
      CollectedViews(entries[..n], p);
      assert Views(entries)[..n] == Views(entries[..n]);
      RepeatViews(CollectedEntries(entries[..n], p), last, Times(last.path, p));
    }
  }

  lemma ViewsSnoc(front: seq<BreakingChangeEntry>, last: BreakingChangeEntry)
    ensures Views(front + [last]) == Views(front) + [last.View()]
  {
    assert (front + [last])[..|front|] == front;
  }

  lemma {:induction false} RepeatViews(entries: seq<BreakingChangeEntry>, last: BreakingChangeEntry, n: nat)
    ensures Views(entries + Repeat(last, n)) == Views(entries) + Repeat(last.View(), n)
  {
    if n == 0 {
      assert entries + [] == entries;
    } else {
      var front := Repeat(last, n - 1);
      RepeatViews(entries, last, n - 1);
      ViewsSnoc(entries + front, last);
      assert entries + (front + [last]) == (entries + front) + [last];
      assert Views(entries) + (Repeat(last.View(), n - 1) + [last.View()])
        == (Views(entries) + Repeat(last.View(), n - 1)) + [last.View()];
    }
  }

  lemma CountSnoc(prefixes: seq<string>, prefix: string, p: string)
    ensures Count(prefixes + [prefix], p) == Count(prefixes, p) + (if p == prefix then 1 else 0)
  {
    assert (prefixes + [prefix])[..|prefixes|] == prefixes;
  }

  lemma RepeatSnoc<T>(front: seq<T>, x: T, n: nat)
    ensures front + Repeat(x, n + 1) == front + Repeat(x, n) + [x]
  {
  }

  lemma FiledAfter(index: Index, prefix: string, entry: BreakingChangeEntry, p: string)
    ensures Filed(index[prefix := Filed(index, prefix) + [entry]], p)
         == if p == prefix then Filed(index, p) + [entry] else Filed(index, p)
  {
  }

  lemma FiledOnce(
      index: Index, result: Index, entry: BreakingChangeEntry, done: seq<string>, prefix: string, p: string)
    requires Filed(result, p) == Filed(index, p) + Repeat(entry, Count(done, p))
    ensures Filed(result[prefix := Filed(result, prefix) + [entry]], p)
      == Filed(index, p) + Repeat(entry, Count(done + [prefix], p))
  {
    CountSnoc(done, prefix, p);
    FiledAfter(result, prefix, entry, p);
    if p == prefix {
      RepeatSnoc(Filed(index, p), entry, Count(done, p));
    }
  }

  ghost predicate FiledUnder(index: Index, result: Index, entry: BreakingChangeEntry, done: seq<string>) {
    forall p :: Filed(result, p) == Filed(index, p) + Repeat(entry, Count(done, p))
  }

  method FileUnder(
      ghost index: Index, result: Index, entry: BreakingChangeEntry, ghost done: seq<string>, prefix: string)
      returns (next: Index)
    requires FiledUnder(index, result, entry, done)
    ensures FiledUnder(index, next, entry, done + [prefix])
  {
    next := result[prefix := Filed(result, prefix) + [entry]];
    forall p
      ensures Filed(next, p) == Filed(index, p) + Repeat(entry, Count(done + [prefix], p))
    {
      FiledOnce(index, result, entry, done, prefix, p);
    }
  }

  /** Files `entry` under each of its prefixes. */
  method IndexEntry(index: Index, entry: BreakingChangeEntry) returns (result: Index)
    ensures FiledUnder(index, result, entry, Prefixes("", Split(entry.path)))
  {
    result := index;
    var prefix, segments := "", Split(entry.path);
    ghost var all, done := Prefixes("", segments), [];
    for n := 0 to |segments|
      invariant all == done + Prefixes(prefix, segments[n..])
      invariant FiledUnder(index, result, entry, done)
    {
      prefix := Extend(prefix, segments[n]);
      assert segments[n..][1..] == segments[n + 1..];
      result := FileUnder(index, result, entry, done, prefix);
      done := done + [prefix];
    }
    assert all == done;
  }

  method BuildIndex(entries: seq<BreakingChangeEntry>) returns (index: Index)
    ensures forall p :: Filed(index, p) == CollectedEntries(entries, p)
  {
    index := map[];
    for k := 0 to |entries|
      invariant forall p :: Filed(index, p) == CollectedEntries(entries[..k], p)
    {
      index := IndexEntry(index, entries[k]);
      assert entries[..k + 1][..k] == entries[..k];
    }
    assert entries[..|entries|] == entries;
  }

  method Highest'(entries: seq<BreakingChangeEntry>) returns (best: BreakingChangeEntry)
    requires entries != []
    ensures best in entries && best.View() == Highest(Views(entries))
  {
    best := entries[0];
    assert Views(entries[..1]) == [entries[0].View()];
    for k := 1 to |entries|
      invariant best in entries && best.View() == Highest(Views(entries[..k]))
    {
      assert Views(entries[..k + 1])[..k] == Views(entries[..k]);
      if LevelOrder(entries[k].level) > LevelOrder(best.level) {
        best := entries[k];
      }
    }
    assert entries[..|entries|] == entries;
  }

  /** The summary entries of a run, from the final grades. */
  function Summary(summary: seq<ChangelogEntry>, finals: seq<Grade>): (result: seq<SummaryEntry>)
    ensures |result| == |summary|
    ensures forall n :: 0 <= n < |summary| ==> result[n] == Summarize(summary[n], Collected(finals, summary[n].path))
  {
    if summary == [] then []
    else
      var last := summary[|summary| - 1];
      Summary(summary[..|summary| - 1], finals) + [Summarize(last, Collected(finals, last.path))]
  }

  method SummarizeFound(change: ChangelogEntry, graded: seq<BreakingChangeEntry>, found: seq<BreakingChangeEntry>)
      returns (entry: SummaryEntry)
    requires found == CollectedEntries(graded, change.path)
    ensures entry == Summarize(change, Collected(Views(graded), change.path))
  {
    CollectedViews(graded, change.path);
    if found == [] {
      entry := SummaryEntry(change.path, change.kind, Info, "summary-fallback", None, None);
    } else {
      var highest := Highest'(found);
      entry := SummaryEntry(
        change.path, change.kind, highest.level, "summary:" + highest.ruleId, highest.oldValue, highest.newValue);
    }
  }

  lemma SummaryStep(summary: seq<ChangelogEntry>, finals: seq<Grade>, n: nat)
    requires n < |summary|
    ensures Summary(summary[..n + 1], finals)
         == Summary(summary[..n], finals) + [Summarize(summary[n], Collected(finals, summary[n].path))]
  {
    assert summary[..n + 1][..n] == summary[..n];
  }

  method SummarizeAll(summary: seq<ChangelogEntry>, graded: seq<BreakingChangeEntry>, index: Index)
      returns (result: seq<SummaryEntry>)
    requires forall p :: Filed(index, p) == CollectedEntries(graded, p)
    ensures result == Summary(summary, Views(graded))
  {
    result := [];
    for n := 0 to |summary|
      invariant result == Summary(summary[..n], Views(graded))
    {
      SummaryStep(summary, Views(graded), n);
      var entry := SummarizeFound(summary[n], graded, Filed(index, summary[n].path));
      result := result + [entry];
    }
    assert summary[..|summary|] == summary;
  }

  /** Grade `entries` for `perspective`, and roll the grades up into `summary`. */
  method Detect(
      rules: seq<Rule>, entries: seq<ChangelogEntry>, summary: seq<ChangelogEntry>,
      perspective: Perspective, before: Json, after: Json)
      returns (report: Option<Report>)
    ensures report.Some? <==> ClassifyAll(rules, entries, perspective, before, after).Some?
    ensures report.Some? ==> fresh(report.value.entries)
    ensures report.Some? ==>
      Views(report.value.entries) == Finals(ClassifyAll(rules, entries, perspective, before, after).value)
    ensures report.Some? ==> report.value.summary == Summary(summary, Views(report.value.entries))
  {
    var classified := ClassifyEntries(rules, entries, perspective, before, after);
    if classified.None? {
      return None;
    }
    var graded := classified.value;
    SilenceInsideElements(graded);
    var index := BuildIndex(graded);
    var result := SummarizeAll(summary, graded, index);
    return Some(Report(result, graded));
  }
}
