/**
 * Columns that join or leave a primary key: the grade of such an entry, compared with the tables
 * that satisfy the key before and after.
 */
module PrimaryKeys {
  import opened Wrappers
  import opened JsonTrees
  import opened Breaking
  import opened Paths
  import opened Rules
  import opened Datasets
  import Lookups

  ghost predicate NoNullIn(columns: set<string>, row: Dict) {
    forall c :: c in columns ==> Get(row, c) != Null
  }

  ghost predicate Apart(columns: set<string>, one: Dict, two: Dict) {
    exists c :: c in columns && Get(one, c) != Get(two, c)
  }

  /** No column of the key is null and no two rows agree on all of them; without a key, nothing is checked. */
  ghost predicate KeyHolds(columns: set<string>, table: Table) {
    columns != {} ==>
      && (forall n :: 0 <= n < |table| ==> NoNullIn(columns, table[n]))
      && (forall m, n :: 0 <= m < n < |table| ==> Apart(columns, table[m], table[n]))
  }

  /** Some table satisfies the one key and not the other. */
  ghost predicate Admits(key: set<string>, other: set<string>) {
    exists table :: KeyHolds(key, table) && !KeyHolds(other, table)
  }

  ghost function TrueKeyDirection(before: set<string>, after: set<string>): Direction {
    DirectionOf(Admits(after, before), Admits(before, after))
  }

  /** Two different keys, of which the second checks something: the first admits what the second does not. */
  lemma DifferentKeysAdmit(key: set<string>, other: set<string>)
    requires key != other && other != {}
    ensures Admits(key, other)
  {
    if column :| column in other && column !in key {
      var lacking: Table := [map c | c in key :: Num(0.0)];
      assert Get(lacking[0], column) == Null && !NoNullIn(other, lacking[0]);
      assert KeyHolds(key, lacking) && !KeyHolds(other, lacking);
    } else {
      assert other <= key;
      var column :| column in key && column !in other;
      var one: Dict := map c | c in key :: Num(0.0);
      var table: Table := [one, one[column := Num(1.0)]];
      assert Get(table[0], column) != Get(table[1], column);
      assert Apart(key, table[0], table[1]) && !Apart(other, table[0], table[1]);
      assert KeyHolds(key, table) && !KeyHolds(other, table);
    }
  }

  /** What moving from one key to another means: a first key only tightens, a last one only loosens. */
  lemma KeysCompared(before: set<string>, after: set<string>)
    requires before != after
    ensures TrueKeyDirection(before, after) == if before == {} then Tightens else if after == {} then Loosens else Both
  {
    if before != {} {
      DifferentKeysAdmit(after, before);
    }
    if after != {} {
      DifferentKeysAdmit(before, after);
    }
  }

  /** An entry of the flag that makes a column part of the key. */
  predicate IsKeyFlag(e: ChangelogEntry, old': bool, new': bool) {
    && InSchema(e.path) && (EndsWith(e.path, ".primaryKey") || EndsWith(e.path, ".primary_key"))
    && Rules.Flag(e.oldValue) == Some(old') && Rules.Flag(e.newValue) == Some(new')
  }

  lemma NoPositionSuffix(path: string)
    requires EndsWith(path, ".primaryKey") || EndsWith(path, ".primary_key")
    ensures !EndsWith(path, ".primaryKeyPosition")
  {
    if EndsWith(path, ".primaryKey") {
      assert path[|path| - 11..][10] == path[|path| - 1] == 'y';
    } else {
      assert path[|path| - 12..][11] == path[|path| - 1] == 'y';
    }
    assert |path| >= 19 ==> path[|path| - 19..][18] == path[|path| - 1];
  }

  lemma KeyFlagIsRead(e: ChangelogEntry, before: Json, after: Json, old': bool, new': bool)
    requires IsKeyFlag(e, old', new') && old' != new'
    ensures var path := BeforeFirst(e.path, ".properties.");
      KeyDirection(e, before, after) ==
        Some(if KeysRaise(before, after, path) then Raises
             else Graded(if |KeyColumns(before, path)| > 1 || |KeyColumns(after, path)| > 1 then Both
                         else if new' then Tightens else Loosens))
  {
    NoPositionSuffix(e.path);
    EndsInAKey(e.path);
    KeyFlagMoves(if new' then Tightens else Loosens, before, after, BeforeFirst(e.path, ".properties."));
    assert FlagDirection(e) == if new' then Tightens else Loosens;
  }

  lemma EndsInAKey(path: string)
    requires EndsWith(path, ".primaryKey") || EndsWith(path, ".primary_key")
    ensures EndsWithAny(path, [".primaryKey", ".primary_key"])
  {
    var suffixes := [".primaryKey", ".primary_key"];
    assert EndsWith(path, suffixes[0]) || EndsWith(path, suffixes[1]);
  }

  lemma KeyFlagMoves(d: Direction, before: Json, after: Json, path: string)
    requires d == Tightens || d == Loosens
    ensures KeyFlagDirection(d, before, after, path) ==
      if KeysRaise(before, after, path) then Raises
      else Graded(if |KeyColumns(before, path)| > 1 || |KeyColumns(after, path)| > 1 then Both else d)
  {
  }

  /**
   * A column that joins a key, whatever else does, is graded by the true change of the tables that satisfy
   * it, except exactly when a whole composite key is new, which only tightens but is graded as both, and
   * when it takes the place of a single column, which moves both ways but is graded as tightening; and
   * it is not graded at all if the properties of a schema cannot be read.
   */
  lemma JoiningColumnIsExact(e: ChangelogEntry, before: Json, after: Json, column: string)
    requires IsKeyFlag(e, false, true)
    requires var path := BeforeFirst(e.path, ".properties.");
      column in KeyColumns(after, path) && column !in KeyColumns(before, path)
    ensures var path := BeforeFirst(e.path, ".properties.");
      var key1, key2 := KeyColumns(before, path), KeyColumns(after, path);
      (KeyDirection(e, before, after) == Some(Graded(TrueKeyDirection(key1, key2))))
        <==> !KeysRaise(before, after, path) && if key1 == {} then |key2| <= 1 else |key1| > 1 || |key2| > 1
  {
    var path := BeforeFirst(e.path, ".properties.");
    KeyFlagIsRead(e, before, after, false, true);
    KeysCompared(KeyColumns(before, path), KeyColumns(after, path));
  }

  /** The same for a column that leaves a key. */
  lemma LeavingColumnIsExact(e: ChangelogEntry, before: Json, after: Json, column: string)
    requires IsKeyFlag(e, true, false)
    requires var path := BeforeFirst(e.path, ".properties.");
      column in KeyColumns(before, path) && column !in KeyColumns(after, path)
    ensures var path := BeforeFirst(e.path, ".properties.");
      var key1, key2 := KeyColumns(before, path), KeyColumns(after, path);
      (KeyDirection(e, before, after) == Some(Graded(TrueKeyDirection(key1, key2))))
        <==> !KeysRaise(before, after, path) && if key2 == {} then |key1| <= 1 else |key1| > 1 || |key2| > 1
  {
    var path := BeforeFirst(e.path, ".properties.");
    KeyFlagIsRead(e, before, after, true, false);
    KeysCompared(KeyColumns(before, path), KeyColumns(after, path));
  }

  /** A column is part of the key if its flag is set to something true, and a flag that is off is no part of it. */
  lemma FlaggedColumnsAreTheKey(tree: Json, path: string, properties: Dict, column: string)
    requires Get(Fields(Lookups.Lookup(tree, path)), "properties") == Obj(properties)
    requires column in properties && properties[column].Obj?
    ensures Get(properties[column].fields, "primaryKey") == Json.Flag(true) ==> column in KeyColumns(tree, path)
    ensures Get(properties[column].fields, "primaryKey") == Json.Flag(false) ==> column !in KeyColumns(tree, path)
    ensures Get(properties[column].fields, "primaryKey") == Null ==> column !in KeyColumns(tree, path)
  {
  }

  /** The order of the columns in a key is not checked. */
  lemma PositionsAreUntested(e: ChangelogEntry, before: Json, after: Json)
    requires InSchema(e.path) && EndsWith(e.path, ".primaryKeyPosition")
    ensures KeyDirection(e, before, after) == Some(Graded(Untested))
  {
  }
}
