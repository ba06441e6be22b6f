/**
 * Over any run of row writes: header names stay distinct, a name never moves, and every row reads
 * back, by header, exactly what was last written to it.
 */
module ExcelTheorems {
  import opened Wrappers
  import opened JsonTrees
  import opened QualityRules
  import opened ExcelColumns

  /** A name that is found again and that no standard column has, ignoring case. */
  predicate IsCustomName(name: string, standard: set<string>) {
    IsTrimmed(name) && Lower(name) !in standard
  }

  predicate ValidStep(step: Step, standard: set<string>) {
    match step
    case Standard(_, values) => values.Keys <= standard
    case Id(_, _) => "id" in standard
    case Custom(_, key, _) => IsCustomName(key, standard)
  }

  ghost predicate ValidSteps(steps: seq<Step>, standard: set<string>) {
    forall step :: step in steps ==> ValidStep(step, standard)
  }

  /** The value last written to `row` under `name`. */
  ghost function LastWritten(steps: seq<Step>, row: nat, name: string): Option<Json> {
    if steps == [] then None
    else
      match steps[|steps| - 1]
      case Custom(r, key, value) =>
        if r == row && key == name then Some(value) else LastWritten(steps[..|steps| - 1], row, name)
      case _ => LastWritten(steps[..|steps| - 1], row, name)
  }

  function Cell(grid: Grid, row: nat, column: nat): Option<Json> {
    if (row, column) in grid.cells then Some(grid.cells[(row, column)]) else None
  }

  /** Where a reader finds `name`. */
  ghost function ColumnOf(grid: Grid, start: nat, name: string): Option<nat> {
    ColumnIn(Names(grid.header, start), start, name)
  }

  ghost function ColumnIn(names: seq<Option<string>>, start: nat, name: string): Option<nat> {
    if Some(name) in names then Some(start + First(names, Some(name))) else None
  }

  ghost function ReadBack(grid: Grid, start: nat, row: nat, name: string): Option<Json> {
    match ColumnOf(grid, start, name)
    case None => None
    case Some(column) => Cell(grid, row, column)
  }

  ghost predicate DistinctNames(names: seq<Option<string>>) {
    forall i, j :: 0 <= i < j < |names| && names[i] == names[j] ==> names[i].None?
  }

  /** Every custom column holds, in every row, what was last written there under its name. */
  ghost predicate HoldsValues(grid: Grid, start: nat, standard: set<string>, steps: seq<Step>) {
    var names := Names(grid.header, start);
    forall k, row: nat :: 0 <= k < |names| && names[k].Some? && Lower(names[k].value) !in standard ==>
      Cell(grid, row, start + k) == LastWritten(steps, row, names[k].value)
  }

  /** Nothing is written below a column without a name. */
  ghost predicate NamelessAreEmpty(grid: Grid, start: nat) {
    forall c, row: nat :: c >= start && CellText(grid.header, c).None? ==> Cell(grid, row, c).None?
  }

  /** Every name ever written has a column. */
  ghost predicate WrittenHaveColumns(grid: Grid, start: nat, steps: seq<Step>) {
    forall row, name :: LastWritten(steps, row, name).Some? ==> Some(name) in Names(grid.header, start)
  }

  /** The columns under the group header hold what the steps wrote, and nothing else. */
  ghost predicate Holds(grid: Grid, start: nat, standard: set<string>, steps: seq<Step>) {
    && DistinctNames(Names(grid.header, start))
    && HoldsValues(grid, start, standard, steps)
    && NamelessAreEmpty(grid, start)
    && WrittenHaveColumns(grid, start, steps)
  }

  /** A template: distinct names, and no cells under the group header's own columns. */
  ghost predicate IsTemplate(grid: Grid, start: nat, standard: set<string>) {
    && DistinctNames(Names(grid.header, start))
    && (forall c, row: nat :: c >= start && !IsStandard(CellText(grid.header, c), standard) ==>
          Cell(grid, row, c).None?)
  }

  predicate IsStandard(text: Option<string>, standard: set<string>) { text.Some? && Lower(text.value) in standard }

  // ---------------------------------------------------------------- Steps

  /** Standard values touch only columns whose header they name. */
  lemma {:induction false} StandardTouches(grid: Grid, row: nat, values: Dict, n: nat, r: nat, c: nat)
    requires n <= |grid.header|
    requires CellText(grid.header, c).Some? ==> Lower(CellText(grid.header, c).value) !in values
    ensures Cell(grid.(cells := StandardCells(grid, row, values, n)), r, c) == Cell(grid, r, c)
  {
    if n > 0 {
      StandardTouches(grid, row, values, n - 1, r, c);
    }
  }

  lemma LastWrittenStep(steps: seq<Step>, step: Step, row: nat, name: string)
    ensures LastWritten(steps + [step], row, name) ==
      if step.Custom? && step.row == row && step.key == name then Some(step.value) else LastWritten(steps, row, name)
  {
    assert (steps + [step])[..|steps|] == steps;
  }

  /** A step into standard columns leaves every custom column as it was. */
  lemma StandardStepHolds(grid: Grid, start: nat, standard: set<string>, steps: seq<Step>, step: Step)
    requires Holds(grid, start, standard, steps) && ValidStep(step, standard) && !step.Custom?
    ensures Holds(Apply(grid, start, step), start, standard, steps + [step])
  {
    var after := Apply(grid, start, step);
    forall r: nat, c: nat | CellText(grid.header, c).Some? ==> Lower(CellText(grid.header, c).value) !in standard
      ensures Cell(after, r, c) == Cell(grid, r, c)
    {
      if step.Standard? {
        StandardTouches(grid, step.row, step.values, |grid.header|, r, c);
      }
    }
    forall r, n
      ensures LastWritten(steps + [step], r, n) == LastWritten(steps, r, n)
    {
      LastWrittenStep(steps, step, r, n);
    }
  }

  lemma HeaderWithText(header: Header, start: nat, key: string, c: nat)
    requires IsTrimmed(key)
    ensures CellText(HeaderWith(header, start, key), c)
      == if c == start + Offset(Names(header, start), key) then Some(key) else CellText(header, c)
  {
    var names := Names(header, start);
    if Some(key) in names {
      assert names[Offset(names, key)] == Some(key);
    } else {
      SetHeaderText(header, start + Offset(names, key), key);
    }
  }

  /** What a custom step does to the names. */
  lemma CustomStepNames(grid: Grid, start: nat, row: nat, key: string, value: Json)
    requires IsTrimmed(key)
    ensures var names := Names(grid.header, start);
      Names(ApplyCustom(grid, start, row, key, value).header, start)
        == if Some(key) in names then names else NamesWith(names, key)
  {
    HeaderWithNames(grid.header, start, key);
  }

  /** What a custom step does to the header texts and to the cells. */
  lemma CustomStepCells(grid: Grid, start: nat, row: nat, key: string, value: Json)
    requires IsTrimmed(key)
    ensures var column := start + Offset(Names(grid.header, start), key);
      var after := ApplyCustom(grid, start, row, key, value);
      && (forall c: nat :: CellText(after.header, c) == if c == column then Some(key) else CellText(grid.header, c))
      && (forall r: nat, c: nat ::
            Cell(after, r, c) == if r == row && c == column then Some(value) else Cell(grid, r, c))
  {
    forall c: nat
      ensures CellText(HeaderWith(grid.header, start, key), c)
        == if c == start + Offset(Names(grid.header, start), key) then Some(key) else CellText(grid.header, c)
    {
      HeaderWithText(grid.header, start, key, c);
    }
  }

  lemma NamesWithDistinct(names: seq<Option<string>>, key: string)
    requires DistinctNames(names) && Some(key) !in names
    ensures DistinctNames(NamesWith(names, key)) && Some(key) in NamesWith(names, key)
    ensures forall n: Option<string> :: n.Some? && n in names ==> n in NamesWith(names, key)
  {
    var after := NamesWith(names, key);
    assert after[Offset(names, key)] == Some(key);
    forall n: Option<string> | n.Some? && n in names
      ensures n in after
    {
      var k :| 0 <= k < |names| && names[k] == n;
      assert after[k] == n;
    }
  }

  /** Below the new name's column nothing was written before. */
  lemma NewColumnIsEmpty(grid: Grid, start: nat, standard: set<string>, steps: seq<Step>, key: string, r: nat)
    requires Holds(grid, start, standard, steps) && Some(key) !in Names(grid.header, start)
    ensures Cell(grid, r, start + Offset(Names(grid.header, start), key)).None?
    ensures LastWritten(steps, r, key).None?
  {
    var names := Names(grid.header, start);
    var c := start + Offset(names, key);
    assert CellText(grid.header, c).None?;
  }

  lemma CustomStepKeepsValues(
      grid: Grid, start: nat, standard: set<string>, steps: seq<Step>, row: nat, key: string, value: Json)
    requires Holds(grid, start, standard, steps) && IsCustomName(key, standard)
    ensures HoldsValues(ApplyCustom(grid, start, row, key, value), start, standard, steps + [Custom(row, key, value)])
  {
    var names, after := Names(grid.header, start), ApplyCustom(grid, start, row, key, value);
    var names', offset := Names(after.header, start), Offset(names, key);
    CustomStepNames(grid, start, row, key, value);
    CustomStepCells(grid, start, row, key, value);
    forall k: nat, r: nat | k < |names'| && names'[k].Some? && Lower(names'[k].value) !in standard
      ensures Cell(after, r, start + k) == LastWritten(steps + [Custom(row, key, value)], r, names'[k].value)
    {
      LastWrittenStep(steps, Custom(row, key, value), r, names'[k].value);
      if k == offset {
        OwnNameIsThere(names, key, names');
        OwnColumnIsWritten(grid, start, standard, steps, key, r);
      } else {
        OtherNameStays(names, key, names', k);
        assert Cell(after, r, start + k) == Cell(grid, r, start + k);
      }
    }
  }

  /** Below the column of `key` stands what was last written under that name, be it nothing. */
  lemma OwnColumnIsWritten(grid: Grid, start: nat, standard: set<string>, steps: seq<Step>, key: string, r: nat)
    requires Holds(grid, start, standard, steps) && IsCustomName(key, standard)
    ensures Cell(grid, r, start + Offset(Names(grid.header, start), key)) == LastWritten(steps, r, key)
  {
    var names := Names(grid.header, start);
    if Some(key) in names {
      assert names[Offset(names, key)] == Some(key);
    } else {
      NewColumnIsEmpty(grid, start, standard, steps, key, r);
    }
  }

  lemma OwnNameIsThere(names: seq<Option<string>>, key: string, names': seq<Option<string>>)
    requires names' == (if Some(key) in names then names else NamesWith(names, key))
    ensures Offset(names, key) < |names'| && names'[Offset(names, key)] == Some(key)
  {
  }

  /** Beside its own column, a written name changes nothing, and stands nowhere else. */
  lemma OtherNameStays(names: seq<Option<string>>, key: string, names': seq<Option<string>>, k: nat)
    requires DistinctNames(names)
    requires names' == (if Some(key) in names then names else NamesWith(names, key))
    requires k < |names'| && k != Offset(names, key)
    ensures k < |names| && names'[k] == names[k] && names'[k] != Some(key)
  {
  }

  lemma CustomStepHolds(
      grid: Grid, start: nat, standard: set<string>, steps: seq<Step>, row: nat, key: string, value: Json)
    requires Holds(grid, start, standard, steps) && IsCustomName(key, standard)
    ensures Holds(ApplyCustom(grid, start, row, key, value), start, standard, steps + [Custom(row, key, value)])
  {
    var names, after := Names(grid.header, start), ApplyCustom(grid, start, row, key, value);
    CustomStepKeepsValues(grid, start, standard, steps, row, key, value);
    CustomStepNames(grid, start, row, key, value);
    if Some(key) !in names {
      NamesWithDistinct(names, key);
    }
    CustomStepKeepsEmpty(grid, start, row, key, value);
    forall r, name | LastWritten(steps + [Custom(row, key, value)], r, name).Some?
      ensures Some(name) in Names(after.header, start)
    {
      LastWrittenStep(steps, Custom(row, key, value), r, name);
    }
  }

  lemma CustomStepKeepsEmpty(grid: Grid, start: nat, row: nat, key: string, value: Json)
    requires NamelessAreEmpty(grid, start) && IsTrimmed(key)
    ensures NamelessAreEmpty(ApplyCustom(grid, start, row, key, value), start)
  {
    CustomStepCells(grid, start, row, key, value);
  }

  lemma {:induction false} RunHolds(grid: Grid, start: nat, standard: set<string>, steps: seq<Step>)
    requires IsTemplate(grid, start, standard) && ValidSteps(steps, standard)
    ensures Holds(Run(grid, start, steps), start, standard, steps)
  {
    if steps != [] {
      var front, last := steps[..|steps| - 1], steps[|steps| - 1];
      assert steps == front + [last] && last in steps;
      RunHolds(grid, start, standard, front);
      var before := Run(grid, start, front);
      if last.Custom? {
        CustomStepHolds(before, start, standard, front, last.row, last.key, last.value);
      } else {
        StandardStepHolds(before, start, standard, front, last);
      }
    }
  }

  // ---------------------------------------------------------------- Main results

  /**
   * Whatever rows are written in whatever order, header names stay distinct, and reading a row back
   * by header returns exactly the value last written to it under that name.
   */
  lemma RowsReadBack(grid: Grid, start: nat, standard: set<string>, steps: seq<Step>, row: nat, name: string)
    requires IsTemplate(grid, start, standard) && ValidSteps(steps, standard) && IsCustomName(name, standard)
    ensures DistinctNames(Names(Run(grid, start, steps).header, start))
    ensures ReadBack(Run(grid, start, steps), start, row, name) == LastWritten(steps, row, name)
  {
    RunHolds(grid, start, standard, steps);
    HeldIsReadBack(Run(grid, start, steps), start, standard, steps, row, name);
  }

  lemma HeldIsReadBack(grid: Grid, start: nat, standard: set<string>, steps: seq<Step>, row: nat, name: string)
    requires Holds(grid, start, standard, steps) && IsCustomName(name, standard)
    ensures ReadBack(grid, start, row, name) == LastWritten(steps, row, name)
  {
    var names := Names(grid.header, start);
    if Some(name) in names {
      assert names[First(names, Some(name))] == Some(name);
    }
  }

  /** A new name takes no other name's place. */
  lemma NewNameMovesNone(names: seq<Option<string>>, key: string, name: string)
    requires DistinctNames(names) && Some(name) in names && Some(key) !in names
    ensures Some(name) in NamesWith(names, key)
    ensures First(NamesWith(names, key), Some(name)) == First(names, Some(name))
    ensures forall start: nat :: ColumnIn(NamesWith(names, key), start, name) == ColumnIn(names, start, name)
  {
    var after, n := NamesWith(names, key), First(names, Some(name));
    NamesWithDistinct(names, key);
    assert after[n] == Some(name);
    var m := First(after, Some(name));
    assert after[m] == after[n];
  }

  /** No step moves a name to another column. */
  lemma NamesNeverMove(grid: Grid, start: nat, step: Step, name: string)
    requires Some(name) in Names(grid.header, start) && (step.Custom? ==> IsTrimmed(step.key))
    requires DistinctNames(Names(grid.header, start))
    ensures ColumnOf(Apply(grid, start, step), start, name) == ColumnOf(grid, start, name)
  {
    if step.Custom? {
      CustomMovesNone(grid, start, step.row, step.key, step.value, name);
    }
  }

  lemma CustomMovesNone(grid: Grid, start: nat, row: nat, key: string, value: Json, name: string)
    requires Some(name) in Names(grid.header, start) && IsTrimmed(key) && DistinctNames(Names(grid.header, start))
    ensures ColumnOf(ApplyCustom(grid, start, row, key, value), start, name) == ColumnOf(grid, start, name)
  {
    var names := Names(grid.header, start);
    var names' := Names(ApplyCustom(grid, start, row, key, value).header, start);
    CustomStepNames(grid, start, row, key, value);
    if Some(key) !in names {
      NewNameMovesNone(names, key, name);
    }
    assert ColumnIn(names', start, name) == ColumnIn(names, start, name);
  }
}
