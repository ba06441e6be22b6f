/**
 * Custom properties in the Excel export: which are written inline, into which columns, and that
 * every row can be read back by its headers.
 */
module ExcelColumns {
  import opened Wrappers
  import opened JsonTrees
  import opened QualityRules

  // ---------------------------------------------------------------- Inline pairs and sheet rows

  /** A custom property; `rich` if it has an id, a description or a vendor. */
  datatype CustomProperty = CustomProperty(property: string, value: Json, rich: bool)

  datatype Pair = Pair(property: string, value: Json)

  /** The properties that have a name, as pairs. */
  ghost function NamedPairs(props: seq<CustomProperty>): seq<Pair> {
    if props == [] then []
    else
      var front, last := NamedPairs(props[..|props| - 1]), props[|props| - 1];
      if last.property != "" then front + [Pair(last.property, last.value)] else front
  }

  /** What goes to the Custom Properties sheet. */
  datatype SheetRow = SheetRow(element: string, prop: CustomProperty)

  /** The part of an export that collects custom properties for their own sheet. */
  class Export {
    const survives: Json -> bool // a scalar survives being written to a plain cell and read back
    var customPropertyRows: seq<SheetRow>

    constructor (survives: Json -> bool)
      ensures this.survives == survives && customPropertyRows == []
    {
      this.survives := survives;
      customPropertyRows := [];
    }

    predicate IsSimple(prop: CustomProperty, isInline: bool) {
      isInline && !prop.rich && prop.value != Null && survives(prop.value)
    }

    ghost function InlinePairs(props: seq<CustomProperty>, isInline: bool): seq<Pair> {
      if props == [] then []
      else
        var front, last := InlinePairs(props[..|props| - 1], isInline), props[|props| - 1];
        if last.property != "" && IsSimple(last, isInline) then front + [Pair(last.property, last.value)] else front
    }

    ghost function SheetRows(element: string, props: seq<CustomProperty>, isInline: bool): seq<SheetRow> {
      if props == [] then []
      else
        var front, last := SheetRows(element, props[..|props| - 1], isInline), props[|props| - 1];
        if last.property != "" && !IsSimple(last, isInline) then front + [SheetRow(element, last)] else front
    }

    /** The pairs written next to an element; its other named properties go to the sheet. */
    method InlineCustomProperties(
        element: string, props: seq<CustomProperty>, isInline: bool) returns (pairs: seq<Pair>)
      modifies this
      ensures pairs == InlinePairs(props, isInline)
      ensures customPropertyRows == old(customPropertyRows) + SheetRows(element, props, isInline)
    {
      pairs := [];
      for n := 0 to |props|
        invariant pairs == InlinePairs(props[..n], isInline)
        invariant customPropertyRows == old(customPropertyRows) + SheetRows(element, props[..n], isInline)
      {
        assert props[..n + 1][..n] == props[..n];
        if props[n].property != "" {
          if IsSimple(props[n], isInline) {
            pairs := pairs + [Pair(props[n].property, props[n].value)];
          } else {
            customPropertyRows := customPropertyRows + [SheetRow(element, props[n])];
          }
        }
      }
      assert props[..|props|] == props;
    }

    ghost function RowPairs(rows: seq<SheetRow>): seq<Pair> {
      if rows == [] then []
      else
        var last := rows[|rows| - 1].prop;
        RowPairs(rows[..|rows| - 1]) + [Pair(last.property, last.value)]
    }

    /** Every named property is written once, inline or in the sheet; none is lost or doubled. */
    lemma {:induction false} NamedAreSplit(element: string, props: seq<CustomProperty>, isInline: bool)
      ensures multiset(InlinePairs(props, isInline)) + multiset(RowPairs(SheetRows(element, props, isInline)))
           == multiset(NamedPairs(props))
    {
      if props != [] {
        var front, last := props[..|props| - 1], props[|props| - 1];
        NamedAreSplit(element, front, isInline);
        var rows := SheetRows(element, front, isInline);
        assert (rows + [SheetRow(element, last)])[..|rows|] == rows;
      }
    }

    /** What a reader of the workbook gets back: pairs without any details, and the rows of the sheet. */
    ghost function ReadBack(pairs: seq<Pair>, rows: seq<SheetRow>): multiset<CustomProperty> {
      PlainProperties(pairs) + RowProperties(rows)
    }

    ghost function PlainProperties(pairs: seq<Pair>): multiset<CustomProperty> {
      if pairs == [] then multiset{}
      else
        var last := pairs[|pairs| - 1];
        PlainProperties(pairs[..|pairs| - 1]) + multiset{CustomProperty(last.property, last.value, false)}
    }

    ghost function RowProperties(rows: seq<SheetRow>): multiset<CustomProperty> {
      if rows == [] then multiset{} else RowProperties(rows[..|rows| - 1]) + multiset{rows[|rows| - 1].prop}
    }

    ghost function NamedProperties(props: seq<CustomProperty>): multiset<CustomProperty> {
      if props == [] then multiset{}
      else
        var front, last := NamedProperties(props[..|props| - 1]), props[|props| - 1];
        if last.property != "" then front + multiset{last} else front
    }

    /** Every named property is read back with all its details. */
    lemma {:induction false} NothingIsLost(element: string, props: seq<CustomProperty>, isInline: bool)
      ensures ReadBack(InlinePairs(props, isInline), SheetRows(element, props, isInline)) == NamedProperties(props)
    {
      if props != [] {
        var front, last := props[..|props| - 1], props[|props| - 1];
        NothingIsLost(element, front, isInline);
        var pairs, rows := InlinePairs(front, isInline), SheetRows(element, front, isInline);
        assert (pairs + [Pair(last.property, last.value)])[..|pairs|] == pairs;
        assert (rows + [SheetRow(element, last)])[..|rows|] == rows;
      }
    }

    /** Inline stands only what a plain cell can hold: a value that survives it, next to an inline element. */
    lemma {:induction false} InlineValuesSurvive(props: seq<CustomProperty>, isInline: bool)
      ensures forall pair :: pair in InlinePairs(props, isInline) ==>
        isInline && pair.value != Null && survives(pair.value) && pair.property != ""
    {
      if props != [] {
        InlineValuesSurvive(props[..|props| - 1], isInline);
      }
    }
  }

  // ---------------------------------------------------------------- The columns of a sheet

  /** Header cells from the first column on; a cell that was never set is None. */
  type Header = seq<Option<string>>

  /** The trimmed text of a cell, None if there is none. */
  function CellText(header: Header, column: nat): Option<string> {
    if column < |header| && header[column].Some? && Strip(header[column].value) != ""
    then Some(Strip(header[column].value)) else None
  }

  /** The last header cell that is set, or `least`. */
  function LastColumn(header: Header, least: nat): (last: nat)
    ensures last >= least
    ensures forall c :: last < c < |header| ==> header[c].None?
    ensures last > least ==> last < |header| && header[last].Some?
  {
    if |header| > least + 1 && header[|header| - 1].None? then LastColumn(header[..|header| - 1], least)
    else if |header| > least + 1 then |header| - 1
    else least
  }

  /** The names of the columns under the group header that starts at `start`. */
  function Names(header: Header, start: nat): (names: seq<Option<string>>)
    ensures |names| == LastColumn(header, start + 2) - start + 1
    ensures forall k :: 0 <= k < |names| ==> names[k] == CellText(header, start + k)
  {
    seq(LastColumn(header, start + 2) - start + 1, k requires 0 <= k => CellText(header, start + k))
  }

  ghost predicate IsFirst(s: seq<Option<string>>, x: Option<string>, n: nat) {
    n < |s| && s[n] == x && forall k :: 0 <= k < n ==> s[k] != x
  }

  /** `s.index(x)`, if `x` occurs. */
  method FindFirst(s: seq<Option<string>>, x: Option<string>) returns (r: Option<nat>)
    ensures r.Some? ==> IsFirst(s, x, r.value)
    ensures r.None? ==> x !in s
  {
    for n := 0 to |s|
      invariant x !in s[..n]
    {
      if s[n] == x {
        return Some(n);
      }
    }
    return None;
  }

  lemma {:induction false} FirstExists(s: seq<Option<string>>, x: Option<string>) returns (n: nat)
    requires x in s
    ensures IsFirst(s, x, n)
  {
    n := 0;
    while s[n] != x
      invariant n < |s| && x in s[n..]
      invariant forall k :: 0 <= k < n ==> s[k] != x
      decreases |s| - n
    {
      assert s[n..] == [s[n]] + s[n + 1..];
      n := n + 1;
    }
  }

  ghost function First(s: seq<Option<string>>, x: Option<string>): (n: nat)
    requires x in s
    ensures IsFirst(s, x, n)
  {
    assert exists k :: IsFirst(s, x, k) by {
      var k := FirstExists(s, x);
    }
    var k :| IsFirst(s, x, k);
    k
  }

  /** The offset for `key`: its column, else the next empty one, else a new one. */
  ghost function Offset(names: seq<Option<string>>, key: string): nat {
    if Some(key) in names then First(names, Some(key))
    else if None in names then First(names, None)
    else |names|
  }

  /** The offset for `key`, and the names with it in place. */
  method PickColumn(names: seq<Option<string>>, key: string)
      returns (offset: nat, isNew: bool, names': seq<Option<string>>)
    ensures offset == Offset(names, key) && (isNew <==> Some(key) !in names)
    ensures names' == if !isNew then names else NamesWith(names, key)
  {
    names' := names;
    var known := FindFirst(names, Some(key));
    isNew := known.None?;
    if known.Some? {
      offset := known.value;
    } else {
      var free := FindFirst(names, None);
      if free.Some? {
        offset := free.value;
        names' := names[offset := Some(key)];
      } else {
        offset := |names|;
        names' := names + [Some(key)];
      }
    }
  }

  /** The names once a new name has taken the next empty column or a new one. */
  ghost function NamesWith(names: seq<Option<string>>, key: string): seq<Option<string>>
    requires Some(key) !in names
  {
    if None in names then names[Offset(names, key) := Some(key)] else names + [Some(key)]
  }

  function SetHeader(header: Header, column: nat, text: string): (h: Header)
    ensures |h| == if column < |header| then |header| else column + 1
    ensures forall c :: 0 <= c < |h| ==>
      h[c] == if c == column then Some(text) else if c < |header| then header[c] else None
    decreases column - |header|
  {
    if column < |header| then header[column := Some(text)]
    else if column == |header| then header + [Some(text)]
    else SetHeader(header + [None], column, text)
  }

  /** A name a column can be found by again. */
  predicate IsTrimmed(key: string) { key != "" && Strip(key) == key }

  /** A sheet: its header row and its cells by row and column. */
  datatype Grid = Grid(header: Header, cells: map<(nat, nat), Json>)

  /** One step of writing a row: the standard columns, the id, or one custom pair. */
  datatype Step =
    | Standard(row: nat, values: Dict)
    | Id(row: nat, value: Json)
    | Custom(row: nat, key: string, value: Json)

  /** Standard values go wherever a header names them, ignoring case. */
  function StandardCells(grid: Grid, row: nat, values: Dict, n: nat): map<(nat, nat), Json>
    requires n <= |grid.header|
  {
    if n == 0 then grid.cells
    else
      var cells := StandardCells(grid, row, values, n - 1);
      var name := CellText(grid.header, n - 1);
      if name.Some? && Lower(name.value) in values then cells[(row, n - 1) := values[Lower(name.value)]] else cells
  }

  /** The first column headed `id` from column `n` on. */
  function IdColumn(header: Header, n: nat): (r: Option<nat>)
    requires n <= |header|
    ensures r.Some? ==> CellText(header, r.value).Some? && Lower(CellText(header, r.value).value) == "id"
    decreases |header| - n
  {
    if n == |header| then None
    else if CellText(header, n).Some? && Lower(CellText(header, n).value) == "id" then Some(n)
    else IdColumn(header, n + 1)
  }

  function ApplyId(grid: Grid, row: nat, value: Json): Grid {
    var column := IdColumn(grid.header, 0);
    if column.Some? then grid.(cells := grid.cells[(row, column.value) := value]) else grid
  }

  ghost function ApplyCustom(grid: Grid, start: nat, row: nat, key: string, value: Json): Grid {
    var column := start + Offset(Names(grid.header, start), key);
    Grid(HeaderWith(grid.header, start, key), grid.cells[(row, column) := value])
  }

  /** The header once `key` has a column. */
  ghost function HeaderWith(header: Header, start: nat, key: string): Header {
    var names := Names(header, start);
    if Some(key) in names then header else SetHeader(header, start + Offset(names, key), key)
  }

  ghost function Apply(grid: Grid, start: nat, step: Step): Grid {
    match step
    case Standard(row, values) => grid.(cells := StandardCells(grid, row, values, |grid.header|))
    case Id(row, value) => ApplyId(grid, row, value)
    case Custom(row, key, value) => ApplyCustom(grid, start, row, key, value)
  }

  lemma PairIsApplied(grid: Grid, start: nat, row: nat, key: string, value: Json)
    ensures Apply(grid, start, Custom(row, key, value))
      == Grid(HeaderWith(grid.header, start, key),
              grid.cells[(row, start + Offset(Names(grid.header, start), key)) := value])
  {
  }

  ghost function Run(grid: Grid, start: nat, steps: seq<Step>): Grid {
    if steps == [] then grid else Apply(Run(grid, start, steps[..|steps| - 1]), start, steps[|steps| - 1])
  }

  // ---------------------------------------------------------------- The sheet, written step by step

  ghost function CustomSteps(row: nat, pairs: seq<Pair>): seq<Step> {
    if pairs == [] then []
    else
      var last := pairs[|pairs| - 1];
      CustomSteps(row, pairs[..|pairs| - 1]) + [Custom(row, last.property, last.value)]
  }

  /** The steps of writing one row. */
  ghost function RowSteps(row: nat, values: Dict, id: Json, pairs: seq<Pair>): seq<Step> {
    [Standard(row, values)] + (if id != Null then [Id(row, id)] else []) + CustomSteps(row, pairs)
  }

  class Worksheet {
    const start: nat // the first column under the group header
    var header: Header
    var cells: map<(nat, nat), Json>

    ghost function View(): Grid
      reads this
    {
      Grid(header, cells)
    }

    constructor (start: nat, header: Header, cells: map<(nat, nat), Json>)
      ensures this.start == start && View() == Grid(header, cells)
    {
      this.start, this.header, this.cells := start, header, cells;
    }

    method WriteStandard(row: nat, values: Dict)
      modifies this
      ensures View() == Apply(old(View()), start, Standard(row, values))
    {
      for n := 0 to |header|
        invariant header == old(header)
        invariant cells == StandardCells(old(View()), row, values, n)
      {
        var name := CellText(header, n);
        if name.Some? && Lower(name.value) in values {
          cells := cells[(row, n) := values[Lower(name.value)]];
        }
      }
    }

    method WriteId(row: nat, value: Json)
      modifies this
      ensures View() == Apply(old(View()), start, Id(row, value))
    {
      var column := IdColumn(header, 0);
      if column.Some? {
        cells := cells[(row, column.value) := value];
      }
    }

    /** One pair: into the column of its name, else into the next empty column or a new one. */
    method WritePair(
        row: nat, key: string, value: Json, names: seq<Option<string>>) returns (names': seq<Option<string>>)
      requires IsTrimmed(key) && names == Names(header, start)
      modifies this
      ensures View() == Apply(old(View()), start, Custom(row, key, value)) && names' == Names(header, start)
    {
      var offset, isNew;
      offset, isNew, names' := PickColumn(names, key);
      HeaderWithNames(header, start, key);
      PairIsApplied(View(), start, row, key, value);
      ghost var named := HeaderWith(header, start, key);
      if isNew {
        header := SetHeader(header, start + offset, key);
      }
      assert header == named;
      cells := cells[(row, start + offset) := value];
    }

    method WriteCustom(row: nat, pairs: seq<Pair>)
      requires forall p :: p in pairs ==> IsTrimmed(p.property)
      modifies this
      ensures View() == Run(old(View()), start, CustomSteps(row, pairs))
    {
      var names := Names(header, start);
      for n := 0 to |pairs|
        invariant names == Names(header, start)
        invariant View() == Run(old(View()), start, CustomSteps(row, pairs[..n]))
      {
        assert pairs[..n + 1][..n] == pairs[..n];
        RunOneMore(old(View()), start, CustomSteps(row, pairs[..n]), Custom(row, pairs[n].property, pairs[n].value));
        names := WritePair(row, pairs[n].property, pairs[n].value, names);
      }
      assert pairs[..|pairs|] == pairs;
    }

    /** One row: its standard columns, its id, and its inline pairs. */
    method WriteRow(row: nat, values: Dict, id: Json, pairs: seq<Pair>)
      requires forall p :: p in pairs ==> IsTrimmed(p.property)
      modifies this
      ensures View() == Run(old(View()), start, RowSteps(row, values, id, pairs))
    {
      RowRun(View(), start, row, values, id, pairs);
      WriteStandard(row, values);
      if id != Null {
        WriteId(row, id);
      }
      WriteCustom(row, pairs);
    }
  }

  /** The grid once the standard columns and the id of a row are written. */
  ghost function AfterStandard(grid: Grid, start: nat, row: nat, values: Dict, id: Json): Grid {
    var after := Apply(grid, start, Standard(row, values));
    if id != Null then Apply(after, start, Id(row, id)) else after
  }

  lemma RowRun(grid: Grid, start: nat, row: nat, values: Dict, id: Json, pairs: seq<Pair>)
    ensures Run(grid, start, RowSteps(row, values, id, pairs))
         == Run(AfterStandard(grid, start, row, values, id), start, CustomSteps(row, pairs))
  {
    var standard := [Standard(row, values)];
    RunOneMore(grid, start, [], Standard(row, values));
    assert [] + standard == standard;
    if id != Null {
      RunOneMore(grid, start, standard, Id(row, id));
      RunAppend(grid, start, standard + [Id(row, id)], CustomSteps(row, pairs));
    } else {
      RunAppend(grid, start, standard, CustomSteps(row, pairs));
      assert standard + [] == standard;
    }
  }

  lemma RunOneMore(grid: Grid, start: nat, steps: seq<Step>, step: Step)
    ensures Run(grid, start, steps + [step]) == Apply(Run(grid, start, steps), start, step)
  {
    assert (steps + [step])[..|steps|] == steps;
  }

  lemma {:induction false} RunAppend(grid: Grid, start: nat, a: seq<Step>, b: seq<Step>)
    ensures Run(grid, start, a + b) == Run(Run(grid, start, a), start, b)
  {
    if b == [] {
      assert a + b == a;
    } else {
      var front, last := b[..|b| - 1], b[|b| - 1];
      assert b == front + [last];
      RunAppend(grid, start, a, front);
      RunAppendOne(grid, start, a, front, last);
    }
  }

  lemma RunAppendOne(grid: Grid, start: nat, a: seq<Step>, front: seq<Step>, last: Step)
    requires Run(grid, start, a + front) == Run(Run(grid, start, a), start, front)
    ensures Run(grid, start, a + (front + [last])) == Run(Run(grid, start, a), start, front + [last])
  {
    var middle := Run(grid, start, a);
    assert a + (front + [last]) == (a + front) + [last];
    RunOneMore(grid, start, a + front, last);
    RunOneMore(middle, start, front, last);
  }

  /** Writing a name into an empty or new column changes that name and no other. */
  lemma NamesAfter(header: Header, start: nat, key: string)
    requires IsTrimmed(key) && Some(key) !in Names(header, start)
    ensures var names := Names(header, start);
      Names(SetHeader(header, start + Offset(names, key), key), start) == NamesWith(names, key)
  {
    var names := Names(header, start);
    var column := start + Offset(names, key);
    var h := SetHeader(header, column, key);
    SetHeaderText(header, column, key);
    LastAfter(header, start, column, key);
    var after := NamesWith(names, key);
    var names' := Names(h, start);
    assert |names'| == |after|;
    forall k | 0 <= k < |after|
      ensures names'[k] == after[k]
    {
      assert names'[k] == CellText(h, start + k);
      assert start + k != column ==> CellText(h, start + k) == CellText(header, start + k);
    }
  }

  lemma HeaderWithNames(header: Header, start: nat, key: string)
    requires IsTrimmed(key)
    ensures Names(HeaderWith(header, start, key), start)
      == if Some(key) in Names(header, start) then Names(header, start) else NamesWith(Names(header, start), key)
  {
    if Some(key) !in Names(header, start) {
      NamesAfter(header, start, key);
    }
  }

  lemma SetHeaderText(header: Header, column: nat, key: string)
    requires IsTrimmed(key)
    ensures forall c: nat ::
      CellText(SetHeader(header, column, key), c) == if c == column then Some(key) else CellText(header, c)
  {
  }

  lemma LastAfter(header: Header, start: nat, column: nat, key: string)
    requires start <= column <= LastColumn(header, start + 2) + 1
    ensures LastColumn(SetHeader(header, column, key), start + 2) ==
      if column > LastColumn(header, start + 2) then column else LastColumn(header, start + 2)
  {
    var last := LastColumn(header, start + 2);
    LastIs(SetHeader(header, column, key), start + 2, if column > last then column else last);
  }

  lemma {:induction false} LastIs(header: Header, least: nat, last: nat)
    requires last >= least && (forall c :: last < c < |header| ==> header[c].None?)
    requires last > least ==> last < |header| && header[last].Some?
    ensures LastColumn(header, least) == last
  {
  }
}
