/**
 * What the library metrics count in a dataset: missing and invalid values of a column, and keys
 * that occur more than once in a table.
 */
module Datasets {
  import opened Wrappers
  import opened JsonTrees
  import opened Counting

  /** What the query engine decides: pattern matches, and how a percentage is rounded. */
  datatype Engine = Engine(matches: (Json, Json) -> bool, round: real -> real) {

    ghost predicate KeepsOrder() {
      (forall x, y :: x <= y ==> round(x) <= round(y)) && forall x :: x >= 0.0 ==> round(x) >= 0.0
    }
  }

  /** An argument of a rule. */
  function Argument(rule: Dict, name: string): Json { Get(Fields(Get(rule, "arguments")), name) }

  /** `v` is among the values of the list argument `name`; nulls in the list do not count. */
  predicate Lists(rule: Dict, name: string, v: Json) {
    v != Null && Argument(rule, name).Arr? && v in Argument(rule, name).items
  }

  predicate IsMissing(rule: Dict, v: Json) {
    v == Null || Lists(rule, "missingValues", v)
  }

  /** Not missing, and not among the valid values or not like the pattern, as far as these are given. */
  predicate IsInvalid(engine: Engine, rule: Dict, v: Json) {
    && v != Null
    && ((Argument(rule, "validValues") != Null && !Lists(rule, "validValues", v))
        || (Argument(rule, "pattern") != Null && !engine.matches(Argument(rule, "pattern"), v)))
  }

  /** The values a rule counts. */
  function Bad(engine: Engine, rule: Dict): Json -> bool {
    if Get(rule, "metric") == Text("invalidValues") then v => IsInvalid(engine, rule, v)
    else if Get(rule, "metric") == Text("missingValues") then v => IsMissing(rule, v)
    else v => v == Null
  }

  type Column = seq<Json>

  function Count(bad: Json -> bool, column: Column): (n: nat)
    ensures n <= |column|
  {
    if column == [] then 0
    else Count(bad, column[..|column| - 1]) + (if bad(column[|column| - 1]) then 1 else 0)
  }

  /** The count, or the percentage of rows, that a rule compares with its threshold. */
  function Measured(engine: Engine, count: nat, rows: nat, percent: bool): real {
    if !percent then count as real
    else if rows == 0 then 0.0
    else engine.round(count as real * 100.0 / rows as real)
  }

  lemma {:induction false} WiderCountsMore(narrow: Json -> bool, wide: Json -> bool, column: Column)
    requires forall v :: narrow(v) ==> wide(v)
    ensures Count(narrow, column) <= Count(wide, column)
  {
    if column != [] {
      WiderCountsMore(narrow, wide, column[..|column| - 1]);
    }
  }

  lemma {:induction false} SameCounts(one: Json -> bool, two: Json -> bool, column: Column)
    requires forall v :: one(v) == two(v)
    ensures Count(one, column) == Count(two, column)
  {
    if column != [] {
      SameCounts(one, two, column[..|column| - 1]);
    }
  }

  lemma MeasuredKeepsOrder(engine: Engine, fewer: nat, more: nat, rows: nat, percent: bool)
    requires (percent ==> engine.KeepsOrder()) && fewer <= more
    ensures 0.0 <= Measured(engine, fewer, rows, percent) <= Measured(engine, more, rows, percent)
  {
    if percent && rows > 0 {
      assert fewer as real * 100.0 <= more as real * 100.0;
      Scaled(fewer as real * 100.0, more as real * 100.0, rows as real);
    }
  }

  lemma Scaled(x: real, y: real, rows: real)
    requires 0.0 <= x <= y && rows > 0.0
    ensures 0.0 <= x / rows <= y / rows
  {
  }

  /** A column that holds one value `n` times. */
  function Copies(v: Json, n: nat): Column {
    if n == 0 then [] else Copies(v, n - 1) + [v]
  }

  lemma {:induction false} CountCopies(bad: Json -> bool, v: Json, n: nat)
    ensures Count(bad, Copies(v, n)) == if bad(v) then n else 0
  {
    if n > 0 {
      CountCopies(bad, v, n - 1);
      CountOneMore(bad, Copies(v, n - 1), v);
    }
  }

  lemma CountOneMore(bad: Json -> bool, column: Column, v: Json)
    ensures Count(bad, column + [v]) == Count(bad, column) + if bad(v) then 1 else 0
  {
    assert (column + [v])[..|column|] == column;
  }

  lemma {:induction false} CopiesLength(v: Json, n: nat)
    ensures |Copies(v, n)| == n
  {
    if n > 0 {
      CopiesLength(v, n - 1);
    }
  }

  lemma {:induction false} CountBoth(bad: Json -> bool, one: Column, two: Column)
    ensures Count(bad, one + two) == Count(bad, one) + Count(bad, two)
  {
    if two == [] {
      assert one + two == one;
    } else {
      var n := |two| - 1;
      assert (one + two)[..|one| + n] == one + two[..n];
      CountBoth(bad, one, two[..n]);
    }
  }

  /** A column of `n` rows that holds one value `a` times, and nothing else. */
  function Padded(v: Json, a: nat, n: nat): (column: Column)
    requires a <= n
  {
    Copies(v, a) + Copies(Null, n - a)
  }

  lemma CountPadded(bad: Json -> bool, v: Json, a: nat, n: nat)
    requires a <= n && !bad(Null)
    ensures |Padded(v, a, n)| == n && Count(bad, Padded(v, a, n)) == if bad(v) then a else 0
  {
    CountBoth(bad, Copies(v, a), Copies(Null, n - a));
    CountCopies(bad, v, a);
    CountCopies(bad, Null, n - a);
    CopiesLength(v, a);
    CopiesLength(Null, n - a);
  }

  // ---------------------------------------------------------------- Keys that occur more than once

  type Table = seq<Dict>

  function Key(columns: seq<string>, row: Dict): (key: seq<Json>)
    ensures |key| == |columns| && forall n :: 0 <= n < |columns| ==> key[n] == Get(row, columns[n])
  {
    seq(|columns|, n requires 0 <= n < |columns| => Get(row, columns[n]))
  }

  /** Rows `m` and `n` have one key, and it has no null. */
  ghost predicate Repeats(columns: seq<string>, table: Table, m: nat, n: nat) {
    && m < n < |table| && Key(columns, table[m]) == Key(columns, table[n])
    && Null !in Key(columns, table[m])
  }

  ghost function DuplicateKeys(columns: seq<string>, table: Table): set<seq<Json>> {
    set m: nat, n: nat | m < |table| && n < |table| && Repeats(columns, table, m, n) :: Key(columns, table[m])
  }

  ghost function Duplicates(columns: seq<string>, table: Table): nat { |DuplicateKeys(columns, table)| }

  ghost predicate SomeRepeat(columns: seq<string>, table: Table) {
    exists m: nat, n: nat :: Repeats(columns, table, m, n)
  }

  lemma DuplicatesMeanARepeat(columns: seq<string>, table: Table)
    ensures Duplicates(columns, table) > 0 <==> SomeRepeat(columns, table)
  {
    if m: nat, n: nat :| Repeats(columns, table, m, n) {
      assert Key(columns, table[m]) in DuplicateKeys(columns, table);
    }
    if Duplicates(columns, table) > 0 {
      var key :| key in DuplicateKeys(columns, table);
    }
  }

  /** A repeat under more columns is a repeat under fewer. */
  lemma FewerColumnsRepeatToo(narrow: seq<string>, wide: seq<string>, table: Table)
    requires forall c :: c in narrow ==> c in wide
    ensures Duplicates(wide, table) > 0 ==> Duplicates(narrow, table) > 0
  {
    DuplicatesMeanARepeat(narrow, table);
    DuplicatesMeanARepeat(wide, table);
    if m: nat, n: nat :| Repeats(wide, table, m, n) {
      RepeatNarrows(narrow, wide, table, m, n);
    }
  }

  lemma RepeatNarrows(narrow: seq<string>, wide: seq<string>, table: Table, m: nat, n: nat)
    requires (forall c :: c in narrow ==> c in wide) && Repeats(wide, table, m, n)
    ensures Repeats(narrow, table, m, n)
  {
    forall k | 0 <= k < |narrow|
      ensures Get(table[m], narrow[k]) == Get(table[n], narrow[k]) != Null
    {
      assert narrow[k] in wide;
      var w :| 0 <= w < |wide| && wide[w] == narrow[k];
      assert Key(wide, table[m])[w] == Key(wide, table[n])[w];
    }
    assert Key(narrow, table[m]) == Key(narrow, table[n]);
  }

  /** Each of `n` values of `column` twice, and all other columns of `columns` constant. */
  function Pairs(columns: seq<string>, column: string, n: nat): (table: Table)
    ensures |table| == 2 * n
    ensures forall k :: 0 <= k < 2 * n ==> table[k] == PairRow(columns, column, k)
  {
    seq(2 * n, k requires 0 <= k => PairRow(columns, column, k))
  }

  function PairRow(columns: seq<string>, column: string, k: nat): (row: Dict)
    ensures forall c :: c in columns && c != column ==> Get(row, c) == Num(0.0)
    ensures column in columns ==> Get(row, column) == Num((k / 2) as real)
  {
    map c | c in columns :: if c == column then Num((k / 2) as real) else Num(0.0)
  }

  /** Without the column there is one key that repeats. */
  lemma PairsRepeatOnce(narrow: seq<string>, wide: seq<string>, column: string, n: nat)
    requires (forall c :: c in narrow ==> c in wide) && column !in narrow && n > 0
    ensures Duplicates(narrow, Pairs(wide, column, n)) == 1
  {
    var table := Pairs(wide, column, n);
    var zeros := Key(narrow, table[0]);
    forall m: nat | m < |table|
      ensures Key(narrow, table[m]) == zeros && Null !in zeros
    {
      assert forall k :: 0 <= k < |narrow| ==> narrow[k] in wide && narrow[k] != column;
      assert Key(narrow, table[m]) == zeros;
    }
    assert Repeats(narrow, table, 0, 1);
    assert DuplicateKeys(narrow, table) == {zeros};
  }

  /** With it there are `n`. */
  lemma PairsRepeatApart(wide: seq<string>, column: string, n: nat)
    requires column in wide
    ensures Duplicates(wide, Pairs(wide, column, n)) == n
  {
    var keys := DuplicateKeys(wide, Pairs(wide, column, n));
    var at: nat :| at < |wide| && wide[at] == column;
    var f := map key | key in keys :: PairIndex(key[at]);
    forall key | key in keys
      ensures f[key] < n && key == PairKey(wide, column, f[key])
    {
      DuplicateIsAPairKey(wide, column, n, at, key);
    }
    InjectiveSize(keys, f);
    forall i: nat
      ensures i in f.Values <==> i < n
    {
      if i < n {
        PairKeyRepeats(wide, column, n, i);
        PairKeyAt(wide, column, i, at);
        assert f[PairKey(wide, column, i)] == i;
      }
    }
    assert f.Values == Below(n);
  }

  lemma PairKeyAt(wide: seq<string>, column: string, i: nat, at: nat)
    requires at < |wide| && wide[at] == column
    ensures PairIndex(PairKey(wide, column, i)[at]) == i
  {
    assert wide[at] in wide && (2 * i) / 2 == i;
    assert PairKey(wide, column, i)[at] == Num(i as real);
  }

  lemma DuplicateIsAPairKey(wide: seq<string>, column: string, n: nat, at: nat, key: seq<Json>)
    requires at < |wide| && wide[at] == column
    requires key in DuplicateKeys(wide, Pairs(wide, column, n))
    ensures |key| == |wide| && PairIndex(key[at]) < n && key == PairKey(wide, column, PairIndex(key[at]))
  {
    var table := Pairs(wide, column, n);
    var m: nat, m': nat :| m < |table| && m' < |table| && Repeats(wide, table, m, m') && Key(wide, table[m]) == key;
    PairKeyIs(wide, column, n, m);
    PairKeyAt(wide, column, m / 2, at);
  }

  function PairIndex(v: Json): nat {
    if v.Num? && v.num >= 0.0 then v.num.Floor else 0
  }

  function PairKey(wide: seq<string>, column: string, i: nat): seq<Json> {
    Key(wide, PairRow(wide, column, 2 * i))
  }

  lemma PairKeyIs(wide: seq<string>, column: string, n: nat, m: nat)
    requires m < 2 * n
    ensures Key(wide, Pairs(wide, column, n)[m]) == PairKey(wide, column, m / 2)
  {
    assert (2 * (m / 2)) / 2 == m / 2;
    assert PairRow(wide, column, m) == PairRow(wide, column, 2 * (m / 2));
  }

  lemma PairKeyRepeats(wide: seq<string>, column: string, n: nat, i: nat)
    requires i < n
    ensures PairKey(wide, column, i) in DuplicateKeys(wide, Pairs(wide, column, n))
  {
    var table := Pairs(wide, column, n);
    PairKeyIs(wide, column, n, 2 * i);
    PairKeyIs(wide, column, n, 2 * i + 1);
    assert forall k :: 0 <= k < |wide| ==> wide[k] in wide;
    assert Repeats(wide, table, 2 * i, 2 * i + 1);
  }

  /** All rows are a hundred percent, and none of them zero. */
  lemma AllIsAHundred(engine: Engine, rows: nat)
    requires rows > 0
    ensures Measured(engine, rows, rows, true) == engine.round(100.0)
    ensures Measured(engine, 0, rows, true) == engine.round(0.0) && Measured(engine, 0, 0, true) == 0.0
  {
    Quotient(rows as real);
  }

  lemma Quotient(x: real)
    requires x > 0.0
    ensures x * 100.0 / x == 100.0 && 0.0 * 100.0 / x == 0.0
  {
  }

  /** What the metrics count: nulls alone, nulls and markers, or what is neither valid nor null. */
  lemma BadValuesAre(engine: Engine, rule: Dict, v: Json)
    ensures Get(rule, "metric") == Text("nullValues") ==> (Bad(engine, rule)(v) <==> v == Null)
    ensures Get(rule, "metric") == Text("missingValues") ==>
      (Bad(engine, rule)(v) <==> v == Null || Lists(rule, "missingValues", v))
    ensures Get(rule, "metric") == Text("invalidValues") && Bad(engine, rule)(v) ==> v != Null
  {
    assert Text("nullValues") != Text("invalidValues") && Text("nullValues") != Text("missingValues") by {
      assert "nullValues"[0] != "invalidValues"[0] && "nullValues"[0] != "missingValues"[0];
    }
    assert Text("missingValues") != Text("invalidValues") by {
      assert "missingValues"[0] != "invalidValues"[0];
    }
  }
}
