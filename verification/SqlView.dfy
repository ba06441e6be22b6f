/**
 * The SELECT and FROM parts of a generated SQL view: which source each column comes from, and the
 * aliases that tell several sources apart.
 */
module SqlView {
  import opened Wrappers
  import opened Paths
  import opened FreshNames
  import QualityRules

  datatype Property = Property(name: string, physicalName: string, sources: seq<string>)

  /** A selected column: its qualifier, its name in the source, and its name in the view. */
  datatype Column = Column(qualifier: Option<string>, column: string, name: string)

  /** The view's columns and its sources, each with its alias if there is more than one. */
  datatype View = View(select: seq<Column>, from: seq<string>, aliases: map<string, string>)

  function ColumnName(p: Property): string { if p.physicalName != "" then p.physicalName else p.name }

  /** Whether the last segment of an entry names the property itself. */
  predicate NamesProperty(p: Property, column: string) {
    || (p.name != "" && QualityRules.Lower(p.name) == QualityRules.Lower(column))
    || (p.physicalName != "" && QualityRules.Lower(p.physicalName) == QualityRules.Lower(column))
  }

  /** `entry.rpartition(".")`: what precedes the last dot, and what follows it. */
  function Partition(entry: string): (string, string) {
    match CutLast(entry, ".")
    case None => ("", entry)
    case Some(parts) => parts
  }

  /** The source object an entry names, and the column if the entry names one. */
  function SourceOf(p: Property, entry: string): (string, Option<string>) {
    var (object', column) := Partition(entry);
    if object' != "" && NamesProperty(p, column) then (object', Some(column)) else (entry, None)
  }

  function SourcesOf(p: Property): (sources: seq<string>)
    ensures |sources| == |p.sources|
  {
    seq(|p.sources|, n requires 0 <= n < |p.sources| => SourceOf(p, p.sources[n]).0)
  }

  /** The column read from the source: the last one an entry names, else the column of the view. */
  function SourceColumn(p: Property, entries: seq<string>): string {
    if entries == [] then ColumnName(p)
    else
      var last := SourceOf(p, entries[|entries| - 1]);
      if last.1.Some? then last.1.value else SourceColumn(p, entries[..|entries| - 1])
  }

  /** The property's one source, if it has exactly one. */
  function OnlySource(p: Property): Option<string> {
    var sources := SourcesOf(p);
    if sources != [] && forall n :: 0 <= n < |sources| ==> sources[n] == sources[0] then Some(sources[0]) else None
  }

  /** `dict.fromkeys`: the first occurrence of each source, in order. */
  ghost function Dedupe(sources: seq<string>): seq<string> {
    if sources == [] then []
    else
      var front, last := Dedupe(sources[..|sources| - 1]), sources[|sources| - 1];
      if last in front then front else front + [last]
  }

  ghost function AllSources(properties: seq<Property>): seq<string> {
    if properties == [] then []
    else AllSources(properties[..|properties| - 1]) + SourcesOf(properties[|properties| - 1])
  }

  /** The aliases of the first `k` sources. */
  ghost function AliasesBefore(sources: seq<string>, aliases: map<string, string>, k: nat): set<string>
    requires k <= |sources| && forall s :: s in sources ==> s in aliases
  {
    set s | s in sources[..k] :: aliases[s]
  }

  /** Source `k` is aliased by the first candidate for its last segment that no earlier source has. */
  ghost predicate AliasesSource(sources: seq<string>, aliases: map<string, string>, k: nat)
    requires k < |sources| && forall s :: s in sources ==> s in aliases
  {
    IsFresh(aliases[sources[k]], Partition(sources[k]).1, AliasesBefore(sources, aliases, k))
  }

  ghost predicate AliasesSources(sources: seq<string>, aliases: map<string, string>) {
    && (forall s :: s in sources <==> s in aliases)
    && (forall k :: 0 <= k < |sources| ==> AliasesSource(sources, aliases, k))
  }

  method CollectSources(properties: seq<Property>) returns (sources: seq<string>)
    ensures sources == Dedupe(AllSources(properties))
  {
    var all: seq<string> := [];
    for k := 0 to |properties|
      invariant all == AllSources(properties[..k])
    {
      assert properties[..k + 1][..k] == properties[..k];
      all := all + SourcesOf(properties[k]);
    }
    assert properties[..|properties|] == properties;
    sources := [];
    for k := 0 to |all|
      invariant sources == Dedupe(all[..k])
    {
      assert all[..k + 1][..k] == all[..k];
      if all[k] !in sources {
        sources := sources + [all[k]];
      }
    }
    assert all[..|all|] == all;
  }

  ghost predicate NoRepeats(s: seq<string>) { forall i, j :: 0 <= i < j < |s| ==> s[i] != s[j] }

  lemma {:induction false} DedupeHas(sources: seq<string>)
    ensures NoRepeats(Dedupe(sources)) && forall s :: s in Dedupe(sources) <==> s in sources
  {
    if sources != [] {
      DedupeHas(sources[..|sources| - 1]);
      assert sources == sources[..|sources| - 1] + [sources[|sources| - 1]];
    }
  }

  lemma AliasOneMore(sources: seq<string>, aliases: map<string, string>, source: string, alias: string)
    requires AliasesSources(sources, aliases) && source !in sources
    requires IsFresh(alias, Partition(source).1, aliases.Values)
    ensures AliasesSources(sources + [source], aliases[source := alias])
  {
    var all, more := sources + [source], aliases[source := alias];
    forall k | 0 <= k < |all|
      ensures AliasesSource(all, more, k)
    {
      AliasesBeforeSame(sources, aliases, source, alias, k);
      if k < |sources| {
        assert AliasesSource(sources, aliases, k);
      } else {
        AllAliases(sources, aliases);
      }
    }
  }

  lemma AliasesBeforeSame(sources: seq<string>, aliases: map<string, string>, source: string, alias: string, k: nat)
    requires (forall s :: s in sources <==> s in aliases) && source !in sources && k <= |sources|
    ensures AliasesBefore(sources + [source], aliases[source := alias], k) == AliasesBefore(sources, aliases, k)
  {
    assert (sources + [source])[..k] == sources[..k];
  }

  lemma AllAliases(sources: seq<string>, aliases: map<string, string>)
    requires forall s :: s in sources <==> s in aliases
    ensures AliasesBefore(sources, aliases, |sources|) == aliases.Values
  {
    assert sources[..|sources|] == sources;
    forall v | v in aliases.Values
      ensures v in AliasesBefore(sources, aliases, |sources|)
    {
      var s :| s in aliases && aliases[s] == v;
    }
  }

  method AddAlias(
      ghost sources: seq<string>, aliases: map<string, string>, source: string) returns (more: map<string, string>)
    requires AliasesSources(sources, aliases) && source !in sources
    ensures AliasesSources(sources + [source], more)
  {
    var alias, n := FreshName(Partition(source).1, aliases.Values);
    AliasOneMore(sources, aliases, source, alias);
    more := aliases[source := alias];
  }

  method AssignAliases(sources: seq<string>) returns (aliases: map<string, string>)
    requires NoRepeats(sources)
    ensures AliasesSources(sources, aliases)
  {
    aliases := map[];
    ghost var done: seq<string> := [];
    for k := 0 to |sources|
      invariant done == sources[..k] && AliasesSources(done, aliases)
    {
      assert sources[k] !in done;
      aliases := AddAlias(done, aliases, sources[k]);
      done := done + [sources[k]];
    }
    assert done == sources;
  }

  /** Different sources have different aliases. */
  lemma AliasesDiffer(sources: seq<string>, aliases: map<string, string>, m: nat, n: nat)
    requires AliasesSources(sources, aliases) && NoRepeats(sources) && m < n < |sources|
    ensures aliases[sources[m]] != aliases[sources[n]]
  {
    assert AliasesSource(sources, aliases, n);
    assert sources[..n][m] == sources[m];
    assert aliases[sources[m]] in AliasesBefore(sources, aliases, n);
  }

  function SelectColumn(p: Property, aliases: map<string, string>): Column {
    var source := OnlySource(p);
    Column(if source.Some? && source.value in aliases then Some(aliases[source.value]) else None,
           SourceColumn(p, p.sources), ColumnName(p))
  }

  ghost predicate IsView(properties: seq<Property>, view: View) {
    && view.from == Dedupe(AllSources(properties))
    && (if |view.from| > 1 then AliasesSources(view.from, view.aliases) else view.aliases == map[])
    && |view.select| == |properties|
    && (forall k :: 0 <= k < |properties| ==> view.select[k] == SelectColumn(properties[k], view.aliases))
  }

  method ToSqlView(properties: seq<Property>) returns (view: View)
    ensures IsView(properties, view)
  {
    var sources := CollectSources(properties);
    DedupeHas(AllSources(properties));
    var aliases: map<string, string> := map[];
    if |sources| > 1 {
      aliases := AssignAliases(sources);
    }
    var select := SelectColumns(properties, aliases);
    view := View(select, sources, aliases);
  }

  method SelectColumns(properties: seq<Property>, aliases: map<string, string>) returns (select: seq<Column>)
    ensures |select| == |properties|
    ensures forall k :: 0 <= k < |properties| ==> select[k] == SelectColumn(properties[k], aliases)
  {
    select := [];
    for k := 0 to |properties|
      invariant |select| == k && forall n :: 0 <= n < k ==> select[n] == SelectColumn(properties[n], aliases)
    {
      select := select + [SelectColumn(properties[k], aliases)];
    }
  }

  /** `alias` is bound to `source` in FROM or JOIN. */
  ghost predicate Binds(view: View, n: nat, alias: string) {
    n < |view.from| && view.from[n] in view.aliases && view.aliases[view.from[n]] == alias
  }

  /** `alias` is bound in one place, to `source`. */
  ghost predicate BoundOnce(view: View, alias: string, source: string) {
    exists n: nat :: Binds(view, n, alias) && view.from[n] == source && forall m: nat ::
      Binds(view, m, alias) ==> m == n
  }

  lemma AliasIsBoundOnce(properties: seq<Property>, view: View, source: string)
    requires IsView(properties, view) && |view.from| > 1 && source in view.from
    ensures source in view.aliases && BoundOnce(view, view.aliases[source], source)
  {
    DedupeHas(AllSources(properties));
    var n: nat :| n < |view.from| && view.from[n] == source;
    var alias := view.aliases[source];
    assert Binds(view, n, alias);
    forall m: nat | Binds(view, m, alias)
      ensures m == n
    {
      if m < n {
        AliasesDiffer(view.from, view.aliases, m, n);
      } else if n < m {
        AliasesDiffer(view.from, view.aliases, n, m);
      }
    }
  }

  /**
   * With several sources, every column whose property comes from exactly one of them is qualified,
   * and its qualifier is bound exactly once, to that source.
   */
  lemma QualifiersAreBoundOnce(properties: seq<Property>, view: View, k: nat)
    requires IsView(properties, view) && k < |properties|
    ensures view.select[k].qualifier.Some? <==> |view.from| > 1 && OnlySource(properties[k]).Some?
    ensures view.select[k].qualifier.Some? ==>
      BoundOnce(view, view.select[k].qualifier.value, OnlySource(properties[k]).value)
  {
    var source := OnlySource(properties[k]);
    if source.Some? {
      OnlySourceIsListed(properties, k);
      DedupeHas(AllSources(properties));
      if |view.from| > 1 {
        AliasIsBoundOnce(properties, view, source.value);
      }
    }
  }

  lemma {:induction false} OnlySourceIsListed(properties: seq<Property>, k: nat)
    requires k < |properties| && OnlySource(properties[k]).Some?
    ensures OnlySource(properties[k]).value in AllSources(properties)
  {
    var n := |properties| - 1;
    if k < n {
      OnlySourceIsListed(properties[..n], k);
    } else {
      assert SourcesOf(properties[n])[0] in SourcesOf(properties[n]);
    }
  }

  // ---------------------------------------------------------------- What an entry of the lineage says

  /** Two names are the same but for case. */
  ghost predicate SameButCase(a: string, b: string) {
    |a| == |b| && forall n :: 0 <= n < |a| ==> QualityRules.LowerChar(a[n]) == QualityRules.LowerChar(b[n])
  }

  lemma {:induction false} LowerMeans(a: string, b: string)
    ensures QualityRules.Lower(a) == QualityRules.Lower(b) <==> SameButCase(a, b)
  {
    LowerChars(a);
    LowerChars(b);
    if QualityRules.Lower(a) == QualityRules.Lower(b) {
      forall n | 0 <= n < |a|
        ensures QualityRules.LowerChar(a[n]) == QualityRules.LowerChar(b[n])
      {
        assert QualityRules.Lower(a)[n] == QualityRules.Lower(b)[n];
      }
    }
  }

  lemma {:induction false} LowerChars(s: string)
    ensures |QualityRules.Lower(s)| == |s|
    ensures forall n :: 0 <= n < |s| ==> QualityRules.Lower(s)[n] == QualityRules.LowerChar(s[n])
  {
    if s != "" {
      LowerChars(s[1..]);
    }
  }

  /** `column` is the name or the physical name of the property, whatever the case. */
  ghost predicate IsNameOf(p: Property, column: string) {
    (p.name != "" && SameButCase(p.name, column)) || (p.physicalName != "" && SameButCase(p.physicalName, column))
  }

  lemma PartitionAtTheLastDot(object': string, column: string)
    requires NoDot(column)
    ensures Partition(object' + "." + column) == (object', column)
  {
    var s := object' + "." + column;
    assert s[|object'|..|object'| + 1] == ".";
    forall n: nat | |object'| < n <= |s|
      ensures !IsAt(s, ".", n)
    {
      assert n < |s| ==> s[n..n + 1] == [column[n - |object'| - 1]];
    }
    CutLastAt(s, ".", |object'|);
    assert s[..|object'|] == object' && s[|object'| + 1..] == column;
  }

  /** An entry names a column exactly if its last part is a name of the property; else it is a source as a whole. */
  lemma EntryIsRead(p: Property, object': string, column: string)
    requires object' != "" && NoDot(column)
    ensures SourceOf(p, object' + "." + column)
      == if IsNameOf(p, column) then (object', Some(column)) else (object' + "." + column, None)
  {
    PartitionAtTheLastDot(object', column);
    LowerMeans(p.name, column);
    LowerMeans(p.physicalName, column);
  }

  /**
   * A property with one entry: its column is read from the object under the name in the entry if that is one
   * of its own, else from the whole entry under its own column name; in the view it has its physical name, or
   * its name if it has none.
   */
  lemma ColumnIsRead(p: Property, object': string, column: string, aliases: map<string, string>)
    requires object' != "" && NoDot(column) && p.sources == [object' + "." + column]
    ensures var c := SelectColumn(p, aliases);
      var source := if IsNameOf(p, column) then object' else object' + "." + column;
      && c.name == (if p.physicalName == "" then p.name else p.physicalName)
      && c.column == (if IsNameOf(p, column) then column else c.name)
      && c.qualifier == (if source in aliases then Some(aliases[source]) else None)
  {
    EntryIsRead(p, object', column);
    var read := SourceOf(p, p.sources[0]);
    assert SourcesOf(p)[0] == read.0;
    assert OnlySource(p) == Some(read.0);
    assert p.sources[..0] == [] && SourceColumn(p, []) == ColumnName(p);
    assert SourceColumn(p, p.sources) == if read.1.Some? then read.1.value else ColumnName(p);
  }

  /** A column is qualified only if all entries of its property name one source. */
  lemma OneSourceOrNone(p: Property, source: string)
    ensures OnlySource(p) == Some(source) <==>
      p.sources != [] && forall n :: 0 <= n < |p.sources| ==> SourceOf(p, p.sources[n]).0 == source
  {
    assert forall n :: 0 <= n < |p.sources| ==> SourcesOf(p)[n] == SourceOf(p, p.sources[n]).0;
  }
}
