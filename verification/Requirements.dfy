/**
 * What the rules for single fields say, compared with the data: a requirement that is declared admits some
 * data and not other, and the direction of a change is that of the data it admits before and after.
 */
module Requirements {
  import opened Wrappers
  import opened JsonTrees
  import opened Breaking
  import opened Paths
  import opened QualityRules
  import opened Rules
  import opened Datasets
  import opened DetectorTheorems

  /** The true change of the data that is admitted. */
  ghost function TrueChange<D(!new)>(before: D -> bool, after: D -> bool): Direction {
    DirectionOf(exists d :: after(d) && !before(d), exists d :: before(d) && !after(d))
  }

  lemma SameAdmitsNothingNew<D(!new)>(before: D -> bool, after: D -> bool)
    requires forall d :: before(d) <==> after(d)
    ensures TrueChange(before, after) == Untested
  {
  }

  /** A requirement that something fails tightens when it comes, and loosens when it goes. */
  lemma ComingTightens<D(!new)>(free: D -> bool, bound: D -> bool, d: D)
    requires (forall x :: free(x)) && !bound(d)
    ensures TrueChange(free, bound) == Tightens && TrueChange(bound, free) == Loosens
  {
    assert free(d) && !bound(d);
  }

  lemma ApartMovesBothWays<D(!new)>(before: D -> bool, after: D -> bool, lost: D, gained: D)
    requires before(lost) && !after(lost) && after(gained) && !before(gained)
    ensures TrueChange(before, after) == Both
  {
  }

  // ---------------------------------------------------------------- Flags

  /** A required column holds no null. */
  function NoNull(required: bool): Column -> bool {
    column => required ==> forall n :: 0 <= n < |column| ==> column[n] != Null
  }

  /** A unique column repeats no value; nulls are no repeats of each other. */
  function NoRepeat(unique: bool): Column -> bool {
    column => unique ==> forall m, n :: 0 <= m < n < |column| && column[m] != Null ==> column[m] != column[n]
  }

  lemma RequiredColumns(old': bool, new': bool)
    ensures TrueChange(NoNull(old'), NoNull(new'))
      == if old' == new' then Untested else if new' then Tightens else Loosens
  {
    var column: Column := [Null];
    assert column[0] == Null && !NoNull(true)(column);
    ComingTightens(NoNull(false), NoNull(true), column);
    SameAdmitsNothingNew(NoNull(old'), NoNull(old'));
  }

  lemma UniqueColumns(old': bool, new': bool)
    ensures TrueChange(NoRepeat(old'), NoRepeat(new'))
      == if old' == new' then Untested else if new' then Tightens else Loosens
  {
    var column: Column := [Num(1.0), Num(1.0)];
    assert column[0] == column[1] != Null && !NoRepeat(true)(column);
    ComingTightens(NoRepeat(false), NoRepeat(true), column);
    SameAdmitsNothingNew(NoRepeat(old'), NoRepeat(old'));
  }

  /** A changed flag that reads as a boolean in both versions; an absent one is off. */
  predicate IsFlagEntry(e: ChangelogEntry, suffix: string, old': bool, new': bool) {
    && InSchema(e.path) && EndsWith(e.path, suffix)
    && Rules.Flag(e.oldValue) == Some(old') && Rules.Flag(e.newValue) == Some(new')
  }

  lemma FlagMoves(e: ChangelogEntry, old': bool, new': bool)
    requires Rules.Flag(e.oldValue) == Some(old') && Rules.Flag(e.newValue) == Some(new')
    ensures FlagDirection(e) == if old' == new' then Untested else if new' then Tightens else Loosens
  {
  }

  /** The direction of a changed `required` is that of the columns that pass. */
  lemma RequiredIsExact(e: ChangelogEntry, old': bool, new': bool)
    requires IsFlagEntry(e, ".required", old', new')
    ensures RequiredDirection(e) == Some(TrueChange(NoNull(old'), NoNull(new')))
  {
    FlagMoves(e, old', new');
    RequiredColumns(old', new');
  }

  /** So is that of a changed `unique`, and of `uniqueItems` for the items of an array. */
  lemma UniqueIsExact(e: ChangelogEntry, suffix: string, old': bool, new': bool)
    requires IsFlagEntry(e, suffix, old', new') && (suffix == ".unique" || suffix == ".uniqueItems")
    ensures UniqueDirection(e) == Some(TrueChange(NoRepeat(old'), NoRepeat(new')))
  {
    var suffixes := [".unique", ".uniqueItems"];
    assert suffix == suffixes[0] || suffix == suffixes[1];
    assert EndsWithAny(e.path, suffixes);
    FlagMoves(e, old', new');
    UniqueColumns(old', new');
  }

  /** A flag that cannot be read leaves the direction open. */
  lemma UnreadFlagIsOpen(e: ChangelogEntry)
    requires Rules.Flag(e.oldValue).None? || Rules.Flag(e.newValue).None?
    ensures FlagDirection(e) == Undetermined
  {
  }

  lemma {:induction false} StripPlain(s: string)
    requires s != "" && !IsSpace(s[0]) && !IsSpace(s[|s| - 1])
    ensures Strip(s) == s && StripLeft(s) == s
  {
  }

  /** How flags are spelled: Python's `str` of booleans, lower case, or digits. */
  lemma OnIsRead()
    ensures Rules.Flag(Some("True")) == Rules.Flag(Some("true")) == Rules.Flag(Some("1")) == Some(true)
  {
    StripPlain("True");
    StripPlain("true");
    StripPlain("1");
    LowerTrue();
    LowerOthers();
  }

  lemma OffIsRead()
    ensures Rules.Flag(Some("False")) == Rules.Flag(Some("false")) == Rules.Flag(Some("0")) == Some(false)
    ensures Rules.Flag(None) == Some(false)
  {
    StripPlain("False");
    StripPlain("false");
    StripPlain("0");
    LowerFalse();
    LowerOthers();
  }

  /** Nothing else is read. */
  lemma YesIsNotRead()
    ensures Rules.Flag(Some("yes")) == None
  {
    StripPlain("yes");
    LowerOthers();
  }

  lemma LowerTrue()
    ensures Lower("True") == Lower("true") == "true"
  {
    LowerCons("True");
    LowerCons("rue");
    LowerCons("ue");
    LowerCons("e");
    LowerCons("true");
  }

  lemma LowerFalse()
    ensures Lower("False") == Lower("false") == "false"
  {
    LowerCons("False");
    LowerCons("alse");
    LowerCons("lse");
    LowerCons("se");
    LowerCons("e");
    LowerCons("false");
  }

  lemma LowerOthers()
    ensures Lower("1") == "1" && Lower("0") == "0" && Lower("yes") == "yes"
  {
    LowerCons("1");
    LowerCons("0");
    LowerCons("yes");
    LowerCons("es");
    LowerCons("s");
  }

  lemma LowerCons(s: string)
    requires s != ""
    ensures Lower(s) == [LowerChar(s[0])] + Lower(s[1..])
  {
  }

  // ---------------------------------------------------------------- What has to be there

  /** Data has everything that a contract names. */
  function HasAll(names: set<string>): set<string> -> bool { found => names <= found }

  lemma OneMoreName(names: set<string>, name: string)
    requires name !in names
    ensures TrueChange(HasAll(names), HasAll(names + {name})) == Tightens
    ensures TrueChange(HasAll(names + {name}), HasAll(names)) == Loosens
  {
    assert HasAll(names)(names) && !HasAll(names + {name})(names);
    assert forall found :: HasAll(names + {name})(found) ==> HasAll(names)(found);
  }

  /** A property that comes has to be there, one that goes need not. */
  lemma PropertyIsExact(e: ChangelogEntry, names: set<string>, owner: seq<string>, name: string)
    requires Split(e.path) == ["schema"] + owner + ["properties", name] && name !in names && !e.kind.Updated?
    ensures PropertyDirection(e) == Some(
      if e.kind.Added? then TrueChange(HasAll(names), HasAll(names + {name}))
      else TrueChange(HasAll(names + {name}), HasAll(names)))
  {
    var segments := Split(e.path);
    assert segments[0] == "schema" && segments[|segments| - 2] == "properties";
    OneMoreName(names, name);
  }

  /** So it is with schemas. */
  lemma SchemaIsExact(e: ChangelogEntry, names: set<string>, name: string)
    requires Split(e.path) == ["schema", name] && name !in names && !e.kind.Updated?
    ensures SchemaDirection(e) == Some(
      if e.kind.Added? then TrueChange(HasAll(names), HasAll(names + {name}))
      else TrueChange(HasAll(names + {name}), HasAll(names)))
  {
    OneMoreName(names, name);
  }

  // ---------------------------------------------------------------- What a declared value demands

  /** A declared value has to be met; without one anything will do. */
  function Meets(declared: Option<string>): string -> bool { found => declared.None? || found == declared.value }

  lemma AnotherText(s: string) returns (t: string)
    ensures t != s
  {
    t := s + "x";
    assert |t| != |s|;
  }

  lemma DeclaredValues(old': Option<string>, new': Option<string>)
    ensures TrueChange(Meets(old'), Meets(new')) ==
      if old' == new' then Untested else if old'.None? then Tightens else if new'.None? then Loosens else Both
  {
    if old' == new' {
      SameAdmitsNothingNew(Meets(old'), Meets(new'));
    } else if old'.None? {
      var t := AnotherText(new'.value);
      ComingTightens(Meets(old'), Meets(new'), t);
    } else if new'.None? {
      var t := AnotherText(old'.value);
      ComingTightens(Meets(new'), Meets(old'), t);
    } else {
      ApartMovesBothWays(Meets(old'), Meets(new'), old'.value, new'.value);
    }
  }

  /** The kind of a change from one value to another. */
  predicate IsKindOf(kind: ChangeType, old': Option<string>, new': Option<string>) {
    match kind
    case Added => old'.None? && new'.Some?
    case Removed => old'.Some? && new'.None?
    case Updated => old'.Some? && new'.Some? && old' != new'
  }

  /** The direction of a changed type is that of the columns that have it. */
  lemma TypeIsExact(e: ChangelogEntry, suffix: string, old': Option<string>, new': Option<string>)
    requires InSchema(e.path) && |Split(e.path)| >= 5 && IsKindOf(e.kind, old', new')
    requires EndsWith(e.path, suffix) && (suffix == ".logicalType" || suffix == ".physicalType")
    ensures TypeDirection(e) == Some(TrueChange(Meets(old'), Meets(new')))
  {
    var suffixes := [".logicalType", ".physicalType"];
    assert suffix == suffixes[0] || suffix == suffixes[1];
    assert EndsWithAny(e.path, suffixes);
    DeclaredValues(old', new');
  }

  /** So is that of the dimensions of a vector. */
  lemma DimensionsAreExact(e: ChangelogEntry, old': Option<string>, new': Option<string>)
    requires InSchema(e.path) && EndsWith(e.path, DIMENSIONS) && IsKindOf(e.kind, old', new')
    ensures VectorDirection(e) == Some(TrueChange(Meets(old'), Meets(new')))
  {
    var suffixes := [DIMENSIONS, ELEMENT_TYPE];
    assert EndsWith(e.path, suffixes[0]);
    assert EndsWithAny(e.path, suffixes);
    NoElementType(e.path);
    DeclaredValues(old', new');
  }

  lemma NoElementType(path: string)
    requires EndsWith(path, DIMENSIONS)
    ensures !EndsWith(path, ".elementType")
  {
    assert DIMENSIONS[|DIMENSIONS| - 1] == 's';
    assert path[|path| - |DIMENSIONS|..][|DIMENSIONS| - 1] == path[|path| - 1];
    assert |path| >= 12 ==> path[|path| - 12..][11] == path[|path| - 1];
  }

  /** A value that stands for another one where it is not set. */
  function OrDefault(value: Option<string>, default: string): string {
    match value
    case None => default
    case Some(s) => if s == "" then default else s
  }

  /** The elements of a vector are 32-bit floats unless declared otherwise. */
  lemma ElementTypeIsExact(e: ChangelogEntry)
    requires InSchema(e.path) && EndsWith(e.path, ELEMENT_TYPE)
    ensures VectorDirection(e) == Some(
      TrueChange(Meets(Some(OrDefault(e.oldValue, "float32"))), Meets(Some(OrDefault(e.newValue, "float32")))))
  {
    var suffixes := [DIMENSIONS, ELEMENT_TYPE];
    assert EndsWith(e.path, suffixes[1]);
    assert EndsWithAny(e.path, suffixes);
    EndsInElementType(e.path);
    DeclaredValues(Some(OrDefault(e.oldValue, "float32")), Some(OrDefault(e.newValue, "float32")));
  }

  lemma EndsInElementType(path: string)
    requires EndsWith(path, ELEMENT_TYPE)
    ensures EndsWith(path, ".elementType")
  {
    var n := |path| - |ELEMENT_TYPE|;
    assert ELEMENT_TYPE[|ELEMENT_TYPE| - 12..] == ".elementType";
    assert path[n..][|ELEMENT_TYPE| - 12..] == path[|path| - 12..];
  }

  /** The physical type of a schema is a kind of table, which nothing checks. */
  lemma KindsOfTablesAreUnchecked(e: ChangelogEntry, name: string)
    requires NoDot(name) && e.path == "schema" + "." + (name + "." + "physicalType")
    ensures TypeDirection(e).None?
  {
    ThreeSegments("schema", name, "physicalType");
  }

  lemma ThreeSegments(a: string, b: string, c: string)
    requires NoDot(a) && NoDot(b) && NoDot(c)
    ensures |Split(a + "." + (b + "." + c))| == 3
  {
    SplitAppend(a, b + "." + c);
    SplitAppend(b, c);
    SplitNoDot(a);
    SplitNoDot(b);
    SplitNoDot(c);
  }

  /** What no other rule grades is tested by nothing. */
  lemma TheRestIsUntested(host: Host, e: ChangelogEntry, before: Json, after: Json)
    ensures Evaluate(host, MetadataFallback, e, before, after) == Evaluates("metadata-or-unknown-change", Untested)
  {
  }
}
