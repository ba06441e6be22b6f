/**
 * What the detector promises: silencing always leaves a witness, the prefix index holds exactly
 * what lies at or inside a path, and the summary loses no grade.
 */
module DetectorTheorems {
  import opened Wrappers
  import opened Breaking
  import opened Paths
  import opened Rules
  import opened Detector

  // ---------------------------------------------------------------- Silencing

  /** Element `w` stands for the silenced entry at `path`: it is around it and keeps its own grade. */
  ghost predicate WitnessFor(grades: seq<Grade>, path: string, w: nat) {
    && w < |grades| && IsElement(grades[w]) && Inside(path, grades[w].path)
    && Final(grades, grades[w]) == grades[w]
  }

  /** Whatever is silenced lies inside an added or removed element that is itself not silenced. */
  lemma {:induction false} SilencingLeavesAWitness(grades: seq<Grade>, path: string) returns (w: nat)
    requires Silenced(grades, path)
    ensures WitnessFor(grades, path, w)
    decreases |path|
  {
    w :| w < |grades| && IsElement(grades[w]) && Inside(path, grades[w].path);
    if Silenced(grades, grades[w].path) {
      var around := grades[w].path;
      w := SilencingLeavesAWitness(grades, around);
      assert around + "." <= path;
    }
  }

  /** The order of the entries does not matter for what is silenced. */
  lemma SilencingIgnoresOrder(grades: seq<Grade>, reordered: seq<Grade>, g: Grade)
    requires multiset(grades) == multiset(reordered)
    ensures Final(grades, g) == Final(reordered, g)
  {
    SilencedMoves(grades, reordered, g.path);
    SilencedMoves(reordered, grades, g.path);
  }

  lemma SilencedMoves(grades: seq<Grade>, reordered: seq<Grade>, path: string)
    requires multiset(grades) == multiset(reordered)
    ensures Silenced(grades, path) ==> Silenced(reordered, path)
  {
    if k :| 0 <= k < |grades| && IsElement(grades[k]) && Inside(path, grades[k].path) {
      assert grades[k] in multiset(reordered);
    }
  }

  // ---------------------------------------------------------------- The prefix index

  /** The prefixes of `x + rest` that end in `rest`, at a dot or at its end. */
  ghost function Cuts(x: string, rest: string): seq<string>
    decreases |rest|
  {
    if rest == "" then [x]
    else if rest[0] == '.' then [x] + Cuts(x + ".", rest[1..])
    else Cuts(x + [rest[0]], rest[1..])
  }

  lemma {:induction false} PrefixesAreCuts(x: string, rest: string)
    requires x + Split(rest)[0] != ""
    ensures var s := Split(rest); [x + s[0]] + Prefixes(x + s[0], s[1..]) == Cuts(x, rest)
    decreases |rest|
  {
    var s := Split(rest);
    if rest == "" {
      assert s[1..] == [] && x + "" == x;
    } else if rest[0] == '.' {
      var t := Split(rest[1..]);
      PrefixesAreCuts(x + ".", rest[1..]);
      assert s[1..] == t && x + "" == x;
      assert Prefixes(x, t) == [x + "." + t[0]] + Prefixes(x + "." + t[0], t[1..]);
    } else {
      var t := Split(rest[1..]);
      assert s[0] == [rest[0]] + t[0] && s[1..] == t[1..];
      assert x + s[0] == (x + [rest[0]]) + t[0];
      PrefixesAreCuts(x + [rest[0]], rest[1..]);
    }
  }

  ghost predicate IsCut(x: string, rest: string, p: string) {
    |p| >= |x| && p <= x + rest && (p == x + rest || (x + rest)[|p|] == '.')
  }

  lemma {:induction false} CountCons(a: string, s: seq<string>, p: string)
    ensures Count([a] + s, p) == (if a == p then 1 else 0) + Count(s, p)
  {
    var all := [a] + s;
    if s == [] {
      assert all[..0] == [];
    } else {
      assert all[..|all| - 1] == [a] + s[..|s| - 1];
      CountCons(a, s[..|s| - 1], p);
    }
  }

  lemma {:induction false} CutsAreCounted(x: string, rest: string, p: string)
    ensures Count(Cuts(x, rest), p) == if IsCut(x, rest, p) then 1 else 0
    decreases |rest|
  {
    if rest == "" {
      assert x + rest == x;
      assert [x] == [x] + [];
      CountCons(x, [], p);
    } else if rest[0] == '.' {
      assert x + rest == (x + ".") + rest[1..];
      CutsAreCounted(x + ".", rest[1..], p);
      CountCons(x, Cuts(x + ".", rest[1..]), p);
    } else {
      assert x + rest == (x + [rest[0]]) + rest[1..];
      CutsAreCounted(x + [rest[0]], rest[1..], p);
    }
  }

  /** `path` is the element `p` or lies inside it. */
  predicate AtOrInside(path: string, p: string) { path == p || Inside(path, p) }

  predicate NoLeadingDot(path: string) { path == "" || path[0] != '.' }

  lemma SplitHead(path: string)
    requires path != "" && path[0] != '.'
    ensures Split(path)[0] != ""
  {
  }

  /** An entry is indexed once under its own path and under each element around it, and nowhere else. */
  lemma IndexedOnce(path: string, p: string)
    requires NoLeadingDot(path)
    ensures Times(path, p) == if AtOrInside(path, p) then 1 else 0
  {
    if path == "" {
      RootIsIndexedOnce(p);
    } else {
      PathIsIndexedOnce(path, p);
    }
  }

  lemma PathIsIndexedOnce(path: string, p: string)
    requires path != "" && path[0] != '.'
    ensures Times(path, p) == if AtOrInside(path, p) then 1 else 0
  {
    SplitHead(path);
    PrefixesOfPath(path);
    CutsAreCounted("", path, p);
    assert "" + path == path;
    assert IsCut("", path, p) <==> AtOrInside(path, p);
  }

  lemma PrefixesOfPath(path: string)
    requires path != "" && path[0] != '.'
    ensures Prefixes("", Split(path)) == Cuts("", path)
  {
    SplitHead(path);
    var s := Split(path);
    assert "" + s[0] == s[0];
    PrefixesAreCuts("", path);
  }

  lemma RootIsIndexedOnce(p: string)
    ensures Times("", p) == if AtOrInside("", p) then 1 else 0
  {
    assert Split("") == [""] && Prefixes("", [""]) == [""] + Prefixes("", []);
    CountCons("", [], p);
  }

  /** The entries at or inside `p`, in order. */
  ghost function Within(grades: seq<Grade>, p: string): seq<Grade> {
    if grades == [] then []
    else
      var last := grades[|grades| - 1];
      Within(grades[..|grades| - 1], p) + (if AtOrInside(last.path, p) then [last] else [])
  }

  /** The index holds under `p` exactly the entries at or inside `p`, once each and in order. */
  lemma {:induction false} IndexIsExact(grades: seq<Grade>, p: string)
    requires forall k :: 0 <= k < |grades| ==> NoLeadingDot(grades[k].path)
    ensures Collected(grades, p) == Within(grades, p)
  {
    if grades != [] {
      var last := grades[|grades| - 1];
      IndexIsExact(grades[..|grades| - 1], p);
      IndexedOnce(last.path, p);
      assert Repeat(last, 1) == [] + [last];
    }
  }

  lemma {:induction false} JoinSplit(path: string)
    ensures Join(Split(path)) == path
  {
    if path != "" {
      var rest := Split(path[1..]);
      JoinSplit(path[1..]);
      if path[0] == '.' {
        assert ([""] + rest)[1..] == rest;
      } else {
        var s := [[path[0]] + rest[0]] + rest[1..];
        assert s[1..] == rest[1..];
        assert path == [path[0]] + path[1..];
      }
    }
  }

  /** No prefix is longer than what is joined. */
  lemma {:induction false} PrefixesFit(x: string, segments: seq<string>, p: string)
    requires p in Prefixes(x, segments)
    ensures |p| <= |Join(segments)| + (if x == "" then 0 else |x| + 1)
    decreases |segments|
  {
    var y := Extend(x, segments[0]);
    if p in Prefixes(y, segments[1..]) {
      PrefixesFit(y, segments[1..], p);
    }
  }

  lemma {:induction false} CountAbsent(s: seq<string>, p: string)
    requires p !in s
    ensures Count(s, p) == 0
  {
    if s != [] {
      CountAbsent(s[..|s| - 1], p);
    }
  }

  /** An entry is filed once under its own path exactly if the path does not start with a dot. */
  lemma LeadingDotIsLost(path: string)
    ensures Times(path, path) == 1 <==> NoLeadingDot(path)
  {
    if NoLeadingDot(path) {
      IndexedOnce(path, path);
    } else {
      var rest := Split(path[1..]);
      JoinSplit(path[1..]);
      assert Split(path)[1..] == rest && Prefixes("", Split(path)) == [""] + Prefixes("", rest);
      if path in Prefixes("", rest) {
        PrefixesFit("", rest, path);
      }
      CountAbsent(Prefixes("", Split(path)), path);
    }
  }

  // ---------------------------------------------------------------- The summary

  lemma {:induction false} HighestIsHighest(grades: seq<Grade>)
    requires grades != []
    ensures Highest(grades) in grades
    ensures forall g :: g in grades ==> LevelOrder(g.level) <= LevelOrder(Highest(grades).level)
  {
    if |grades| > 1 {
      HighestIsHighest(grades[..|grades| - 1]);
      assert grades == grades[..|grades| - 1] + [grades[|grades| - 1]];
    }
  }

  lemma {:induction false} WithinAre(grades: seq<Grade>, p: string, g: Grade)
    ensures g in Within(grades, p) <==> g in grades && AtOrInside(g.path, p)
  {
    if grades != [] {
      WithinAre(grades[..|grades| - 1], p, g);
      assert grades == grades[..|grades| - 1] + [grades[|grades| - 1]];
    }
  }

  /** A summary entry's level is the highest at or inside its path. */
  lemma SummaryLevelIsHighest(grades: seq<Grade>, entry: ChangelogEntry)
    requires forall k :: 0 <= k < |grades| ==> NoLeadingDot(grades[k].path)
    ensures var s := Summarize(entry, Collected(grades, entry.path));
      && (forall g :: g in grades && AtOrInside(g.path, entry.path) ==> LevelOrder(g.level) <= LevelOrder(s.level))
      && (s.level == Info || exists g :: g in grades && AtOrInside(g.path, entry.path) && g.level == s.level)
  {
    IndexIsExact(grades, entry.path);
    var found := Within(grades, entry.path);
    forall g
      ensures g in found <==> g in grades && AtOrInside(g.path, entry.path)
    {
      WithinAre(grades, entry.path, g);
    }
    if found != [] {
      HighestIsHighest(found);
    }
  }

  /** Every entry lies at or inside some summary entry. */
  ghost predicate Covers(summary: seq<ChangelogEntry>, grades: seq<Grade>) {
    forall g :: g in grades ==> exists n :: 0 <= n < |summary| && AtOrInside(g.path, summary[n].path)
  }

  /**
   * If every entry lies at or inside some summary entry, the summary loses no grade and invents
   * none: it reaches a level above Info exactly when some entry has that level or a higher one.
   */
  lemma SummaryLosesNoGrade(summary: seq<ChangelogEntry>, grades: seq<Grade>, level: Level)
    requires forall k :: 0 <= k < |grades| ==> NoLeadingDot(grades[k].path)
    requires Covers(summary, grades) && level != Info
    ensures (exists n :: 0 <= n < |summary| && LevelOrder(Summary(summary, grades)[n].level) >= LevelOrder(level))
       <==> (exists g :: g in grades && LevelOrder(g.level) >= LevelOrder(level))
  {
    if g :| g in grades && LevelOrder(g.level) >= LevelOrder(level) {
      var n := GradeIsSummarized(summary, grades, g);
      assert LevelOrder(Summary(summary, grades)[n].level) >= LevelOrder(level);
    }
    if n :| 0 <= n < |summary| && LevelOrder(Summary(summary, grades)[n].level) >= LevelOrder(level) {
      SummaryHasAGrade(summary, grades, n);
    }
  }

  lemma GradeIsSummarized(summary: seq<ChangelogEntry>, grades: seq<Grade>, g: Grade) returns (n: nat)
    requires forall k :: 0 <= k < |grades| ==> NoLeadingDot(grades[k].path)
    requires Covers(summary, grades) && g in grades
    ensures n < |summary| && LevelOrder(g.level) <= LevelOrder(Summary(summary, grades)[n].level)
  {
    n :| n < |summary| && AtOrInside(g.path, summary[n].path);
    SummaryReaches(grades, summary[n], g);
  }

  lemma SummaryHasAGrade(summary: seq<ChangelogEntry>, grades: seq<Grade>, n: nat)
    requires forall k :: 0 <= k < |grades| ==> NoLeadingDot(grades[k].path)
    requires n < |summary| && Summary(summary, grades)[n].level != Info
    ensures exists g :: g in grades && g.level == Summary(summary, grades)[n].level
  {
    var g := SummaryIsReached(grades, summary[n]);
  }

  lemma SummaryReaches(grades: seq<Grade>, entry: ChangelogEntry, g: Grade)
    requires forall k :: 0 <= k < |grades| ==> NoLeadingDot(grades[k].path)
    requires g in grades && AtOrInside(g.path, entry.path)
    ensures LevelOrder(g.level) <= LevelOrder(Summarize(entry, Collected(grades, entry.path)).level)
  {
    SummaryLevelIsHighest(grades, entry);
  }

  lemma SummaryIsReached(grades: seq<Grade>, entry: ChangelogEntry) returns (g: Grade)
    requires forall k :: 0 <= k < |grades| ==> NoLeadingDot(grades[k].path)
    requires Summarize(entry, Collected(grades, entry.path)).level != Info
    ensures g in grades && g.level == Summarize(entry, Collected(grades, entry.path)).level
  {
    SummaryLevelIsHighest(grades, entry);
    g :| g in grades && AtOrInside(g.path, entry.path)
      && g.level == Summarize(entry, Collected(grades, entry.path)).level;
  }

  // ---------------------------------------------------------------- What a summary entry tells of

  /** The one level is less serious than the other. */
  predicate IsBelow(one: Level, other: Level) {
    (one == Info && other != Info) || (one == Warning && other == Error)
  }

  lemma OrderOfLevels(one: Level, other: Level)
    ensures IsBelow(one, other) <==> LevelOrder(one) < LevelOrder(other)
  {
  }

  /** Entry `k` is the first of the most serious ones at or inside `path`. */
  ghost predicate IsFirstHighest(grades: seq<Grade>, path: string, k: nat) {
    && k < |grades| && AtOrInside(grades[k].path, path)
    && forall n :: 0 <= n < |grades| && AtOrInside(grades[n].path, path) ==>
      if n < k then IsBelow(grades[n].level, grades[k].level) else !IsBelow(grades[k].level, grades[n].level)
  }

  lemma {:induction false} FirstHighestIsFound(grades: seq<Grade>, path: string, k: nat)
    requires IsFirstHighest(grades, path, k)
    ensures Within(grades, path) != [] && Highest(Within(grades, path)) == grades[k]
  {
    var n := |grades| - 1;
    var front, last := grades[..n], grades[n];
    var found := Within(front, path);
    OrderOfLevels(grades[k].level, last.level);
    assert Within(grades, path) == found + (if AtOrInside(last.path, path) then [last] else []);
    if k < n {
      assert IsFirstHighest(front, path, k);
      FirstHighestIsFound(front, path, k);
      assert found + [] == found;
      HighestOfOneMore(found, last);
    } else if found != [] {
      AllWithinAreBelow(front, path, last);
      HighestOfOneMore(found, last);
    } else {
      assert [] + [last] == [last];
    }
  }

  lemma HighestOfOneMore(grades: seq<Grade>, last: Grade)
    requires grades != []
    ensures Highest(grades + [last])
      == if LevelOrder(last.level) > LevelOrder(Highest(grades).level) then last else Highest(grades)
  {
    assert (grades + [last])[..|grades|] == grades;
  }

  lemma AllWithinAreBelow(front: seq<Grade>, path: string, last: Grade)
    requires forall n :: 0 <= n < |front| && AtOrInside(front[n].path, path) ==> IsBelow(front[n].level, last.level)
    requires Within(front, path) != []
    ensures LevelOrder(Highest(Within(front, path)).level) < LevelOrder(last.level)
  {
    var best := Highest(Within(front, path));
    HighestIsOne(Within(front, path));
    WithinAre(front, path, best);
    var n :| 0 <= n < |front| && front[n] == best;
    OrderOfLevels(best.level, last.level);
  }

  lemma {:induction false} HighestIsOne(grades: seq<Grade>)
    requires grades != []
    ensures Highest(grades) in grades
  {
    if |grades| > 1 {
      HighestIsOne(grades[..|grades| - 1]);
    }
  }

  /** A summary entry has its own path and type, and level, rule and values of the first of the most serious entries. */
  lemma SummaryTellsOfTheFirst(grades: seq<Grade>, entry: ChangelogEntry, k: nat)
    requires forall n :: 0 <= n < |grades| ==> NoLeadingDot(grades[n].path)
    requires IsFirstHighest(grades, entry.path, k)
    ensures Summarize(entry, Collected(grades, entry.path)) == SummaryEntry(
      entry.path, entry.kind, grades[k].level, "summary:" + grades[k].ruleId, grades[k].oldValue, grades[k].newValue)
  {
    IndexIsExact(grades, entry.path);
    FirstHighestIsFound(grades, entry.path, k);
  }
}
