/** The module variables of the Polars export, one for each schema. */
module PolarsExport {
  import opened Decimals
  import opened FreshNames

  /** Python's identifiers: how they start, how they go on, and the words that are none. */
  datatype Lexicon = Lexicon(starts: char -> bool, continues: char -> bool, keywords: set<string>) {

    predicate IsIdentifier(s: string) {
      s != "" && starts(s[0]) && forall n :: 0 <= n < |s| ==> continues(s[n])
    }

    /** What holds of Python: `_` may start an identifier, digits may go on, and no keyword has a `_`. */
    ghost predicate LikePython() {
      && starts('_') && (forall c :: starts(c) ==> continues(c)) && (forall c :: IsDigit(c) ==> continues(c))
      && (forall k :: k in keywords ==> '_' !in k) && "pl" !in keywords
    }
  }

  function Sanitize(lexicon: Lexicon, name: string): (s: string)
    ensures |s| == |name|
    ensures forall n :: 0 <= n < |s| ==> s[n] == if lexicon.continues(name[n]) then name[n] else '_'
  {
    if name == "" then "" else [if lexicon.continues(name[0]) then name[0] else '_'] + Sanitize(lexicon, name[1..])
  }

  /** The name a variable is built on. */
  function BaseName(lexicon: Lexicon, schemaName: string): string {
    var sanitized := Sanitize(lexicon, if schemaName != "" then schemaName else "schema");
    var name := if lexicon.IsIdentifier(sanitized) then sanitized else "_" + sanitized;
    if name in lexicon.keywords then name + "_" else name
  }

  /** A word that may be assigned to. */
  predicate IsVariable(lexicon: Lexicon, s: string) {
    lexicon.IsIdentifier(s) && s !in lexicon.keywords
  }

  lemma BaseNameIsAVariable(lexicon: Lexicon, schemaName: string)
    requires lexicon.LikePython()
    ensures IsVariable(lexicon, BaseName(lexicon, schemaName))
  {
    var sanitized := Sanitize(lexicon, if schemaName != "" then schemaName else "schema");
    assert forall n :: 0 <= n < |sanitized| ==> lexicon.continues(sanitized[n]);
    var name := if lexicon.IsIdentifier(sanitized) then sanitized else "_" + sanitized;
    assert lexicon.IsIdentifier(name);
    var last := name + "_";
    assert last[|name|] == '_' && '_' in last;
  }

  lemma CandidateIsAVariable(lexicon: Lexicon, base: string, n: nat)
    requires lexicon.LikePython() && IsVariable(lexicon, base) && n >= 1
    ensures IsVariable(lexicon, Candidate(base, n))
  {
    if n > 1 {
      var s := Candidate(base, n);
      assert s[0] == base[0] && s[|base|] == '_' && '_' in s;
      forall k | 0 <= k < |s|
        ensures lexicon.continues(s[k])
      {
        if k > |base| {
          assert s[k] == Decimal(n)[k - |base| - 1];
        }
      }
    }
  }

  /** The names in use once `variables` are assigned: theirs and the import. */
  ghost function Used(variables: seq<string>): set<string> {
    {"pl"} + set v | v in variables
  }

  /** The variable of schema `k` is the first candidate for its name that no earlier one uses. */
  ghost predicate NamesSchema(lexicon: Lexicon, schemaName: string, variables: seq<string>, k: nat)
    requires k < |variables|
  {
    IsFresh(variables[k], BaseName(lexicon, schemaName), Used(variables[..k]))
  }

  ghost predicate NamesSchemas(lexicon: Lexicon, schemaNames: seq<string>, variables: seq<string>) {
    |variables| == |schemaNames| && forall k ::
      0 <= k < |variables| ==> NamesSchema(lexicon, schemaNames[k], variables, k)
  }

  lemma NamesOneMore(lexicon: Lexicon, schemaNames: seq<string>, variables: seq<string>, name: string, variable: string)
    requires NamesSchemas(lexicon, schemaNames, variables)
    requires IsFresh(variable, BaseName(lexicon, name), Used(variables))
    ensures NamesSchemas(lexicon, schemaNames + [name], variables + [variable])
    ensures Used(variables + [variable]) == Used(variables) + {variable}
  {
    var names, more := schemaNames + [name], variables + [variable];
    assert more[..|variables|] == variables;
    forall k | 0 <= k < |more|
      ensures NamesSchema(lexicon, names[k], more, k)
    {
      if k < |variables| {
        assert more[..k] == variables[..k] && more[k] == variables[k];
        assert NamesSchema(lexicon, schemaNames[k], variables, k);
      }
    }
  }

  method AddVariable(
      lexicon: Lexicon, ghost schemaNames: seq<string>, variables: seq<string>, used: set<string>, name: string)
      returns (variable: string)
    requires NamesSchemas(lexicon, schemaNames, variables) && used == Used(variables)
    ensures NamesSchemas(lexicon, schemaNames + [name], variables + [variable])
    ensures Used(variables + [variable]) == used + {variable}
  {
    ghost var n;
    variable, n := FreshName(BaseName(lexicon, name), used);
    NamesOneMore(lexicon, schemaNames, variables, name, variable);
  }

  /** One variable for each schema, in order. */
  method Variables(lexicon: Lexicon, schemaNames: seq<string>) returns (variables: seq<string>)
    ensures NamesSchemas(lexicon, schemaNames, variables)
  {
    variables := [];
    var used := {"pl"};
    ghost var done: seq<string> := [];
    for k := 0 to |schemaNames|
      invariant done == schemaNames[..k] && NamesSchemas(lexicon, done, variables) && used == Used(variables)
    {
      var variable := AddVariable(lexicon, done, variables, used, schemaNames[k]);
      variables, used, done := variables + [variable], used + {variable}, done + [schemaNames[k]];
    }
    assert done == schemaNames;
  }

  lemma VariableIsNew(lexicon: Lexicon, schemaName: string, variables: seq<string>, k: nat)
    requires lexicon.LikePython() && k < |variables| && NamesSchema(lexicon, schemaName, variables, k)
    ensures IsVariable(lexicon, variables[k]) && variables[k] !in Used(variables[..k])
  {
    BaseNameIsAVariable(lexicon, schemaName);
    var base := BaseName(lexicon, schemaName);
    var c: nat :| c >= 1 && FirstUnused(variables[k], base, Used(variables[..k]), c);
    CandidateIsAVariable(lexicon, base, c);
  }

  /**
   * The variables are valid, pairwise distinct, and none of them hides the import.
   */
  lemma VariablesAreDistinct(lexicon: Lexicon, schemaNames: seq<string>, variables: seq<string>)
    requires lexicon.LikePython() && NamesSchemas(lexicon, schemaNames, variables)
    ensures forall k :: 0 <= k < |variables| ==> IsVariable(lexicon, variables[k]) && variables[k] != "pl"
    ensures forall j, k :: 0 <= j < k < |variables| ==> variables[j] != variables[k]
  {
    forall k | 0 <= k < |variables|
      ensures IsVariable(lexicon, variables[k]) && variables[k] !in Used(variables[..k])
    {
      assert NamesSchema(lexicon, schemaNames[k], variables, k);
      VariableIsNew(lexicon, schemaNames[k], variables, k);
    }
    forall j, k | 0 <= j < k < |variables|
      ensures variables[j] != variables[k]
    {
      assert variables[..k][j] == variables[j];
    }
  }

  // ---------------------------------------------------------------- What a variable is called

  lemma SanitizedAsItIs(lexicon: Lexicon, name: string)
    requires forall n :: 0 <= n < |name| ==> lexicon.continues(name[n])
    ensures Sanitize(lexicon, name) == name
  {
    assert forall n :: 0 <= n < |name| ==> Sanitize(lexicon, name)[n] == name[n];
  }

  /** A name that may be assigned to is kept, a keyword is ended and a name that starts like none is begun with `_`. */
  lemma NamesAreKept(lexicon: Lexicon, name: string)
    requires lexicon.LikePython() && name != "" && forall n :: 0 <= n < |name| ==> lexicon.continues(name[n])
    ensures IsVariable(lexicon, name) ==> BaseName(lexicon, name) == name
    ensures lexicon.IsIdentifier(name) && name in lexicon.keywords ==> BaseName(lexicon, name) == name + "_"
    ensures !lexicon.starts(name[0]) ==> BaseName(lexicon, name) == "_" + name
  {
    SanitizedAsItIs(lexicon, name);
    assert ("_" + name)[0] == '_' && '_' in "_" + name;
  }

  /** A schema without a name is called `schema`. */
  lemma NamelessSchema(lexicon: Lexicon)
    ensures BaseName(lexicon, "") == BaseName(lexicon, "schema")
  {
  }
}
