/**
 * Reading the value at a dotted path when keys may themselves contain dots.
 */
module Lookups {
  import opened JsonTrees
  import opened Wrappers
  import opened Paths

  /**
   * The value at `path`, Null if there is none. Keys are tried longest first; only a prefix of the
   * path can match, so the candidates are the prefixes of the path, by descending length.
   */
  function Lookup(tree: Json, path: string): Json
    decreases 2 * |path|, 0
  {
    if path == "" then tree
    else if !tree.Obj? then Null
    else TryKeys(tree.fields, path, |path|)
  }

  /** Backtracking over the keys of at most `n` characters. */
  function TryKeys(fields: Dict, path: string, n: nat): Json
    requires path != "" && n <= |path|
    decreases 2 * |path| - 1, n + 1
  {
    if n == |path| && path in fields then fields[path]
    else
      var found := Below(fields, path, n);
      if found != Null then found
      else if n == 0 then Null
      else TryKeys(fields, path, n - 1)
  }

  /** What the key of exactly `n` characters leads to. */
  function Below(fields: Dict, path: string, n: nat): Json
    requires path != "" && n <= |path|
    decreases 2 * |path| - 1, n
  {
    if n < |path| && path[n] == '.' && path[..n] in fields
    then Lookup(fields[path[..n]], path[n + 1..])
    else Null
  }

  /** Some split of `path` into keys leads from `tree` to `value`. */
  ghost predicate Reaches(tree: Json, path: string, value: Json) {
    exists keys :: Join(keys) == path && At(tree, keys) == Some(value)
  }

  /** Whatever is found is reached by some split of the path. */
  lemma {:induction false} LookupIsSound(tree: Json, path: string)
    requires !EndsWith(path, ".")
    ensures Lookup(tree, path) != Null ==> Reaches(tree, path, Lookup(tree, path))
    decreases 2 * |path|, 0
  {
    if path == "" {
      assert Join([]) == path && At(tree, []) == Some(tree);
    } else if tree.Obj? {
      TryKeysIsSound(tree.fields, path, |path|);
    }
  }

  lemma {:induction false} TryKeysIsSound(fields: Dict, path: string, n: nat)
    requires path != "" && n <= |path| && !EndsWith(path, ".")
    ensures TryKeys(fields, path, n) != Null ==> Reaches(Obj(fields), path, TryKeys(fields, path, n))
    decreases 2 * |path| - 1, n + 1
  {
    if n == |path| && path in fields {
      assert Join([path]) == path && At(Obj(fields), [path]) == Some(fields[path]);
    } else if Below(fields, path, n) != Null {
      var key, rest := path[..n], path[n + 1..];
      LookupIsSound(fields[key], rest);
      var keys :| Join(keys) == rest && At(fields[key], keys) == Some(Below(fields, path, n));
      assert rest != "";
      JoinAppend([key], keys);
      assert Join([key] + keys) == path;
      assert ([key] + keys)[1..] == keys;
      assert At(Obj(fields), [key] + keys) == Some(Below(fields, path, n));
    } else if n > 0 {
      TryKeysIsSound(fields, path, n - 1);
    }
  }

  /** `keys` lead to a value, and nowhere on the way is the rest of the path itself a key that holds Null. */
  ghost predicate Unhidden(tree: Json, keys: seq<string>)
    decreases |keys|
  {
    if keys == [] then tree != Null
    else
      && tree.Obj? && keys[0] in tree.fields
      && (Join(keys) in tree.fields ==> tree.fields[Join(keys)] != Null)
      && Unhidden(tree.fields[keys[0]], keys[1..])
  }

  ghost predicate LeadsToAValue(tree: Json, path: string) {
    exists keys :: Join(keys) == path && Unhidden(tree, keys)
  }

  lemma {:induction false} FoundIsUnhidden(tree: Json, path: string)
    requires !EndsWith(path, ".") && Lookup(tree, path) != Null
    ensures LeadsToAValue(tree, path)
    decreases 2 * |path|, 0
  {
    if path == "" {
      assert Join([]) == path && Unhidden(tree, []);
    } else {
      TriedIsUnhidden(tree.fields, path, |path|);
    }
  }

  lemma OneKey(fields: Dict, path: string)
    requires path in fields && fields[path] != Null
    ensures LeadsToAValue(Obj(fields), path)
  {
    assert [path][1..] == [] && Join([path]) == path;
    assert Unhidden(Obj(fields), [path]);
  }

  lemma {:induction false} TriedIsUnhidden(fields: Dict, path: string, n: nat)
    requires path != "" && n <= |path| && !EndsWith(path, ".") && TryKeys(fields, path, n) != Null
    requires n < |path| ==> path !in fields
    ensures LeadsToAValue(Obj(fields), path)
    decreases 2 * |path| - 1, n + 1
  {
    if n == |path| && path in fields {
      OneKey(fields, path);
    } else if Below(fields, path, n) != Null {
      var key, rest := path[..n], path[n + 1..];
      FoundIsUnhidden(fields[key], rest);
      var keys :| Join(keys) == rest && Unhidden(fields[key], keys);
      assert rest != "";
      JoinAppend([key], keys);
      assert Join([key] + keys) == path && ([key] + keys)[1..] == keys;
      assert Unhidden(Obj(fields), [key] + keys);
    } else {
      TriedIsUnhidden(fields, path, n - 1);
    }
  }

  lemma {:induction false} UnhiddenIsFound(tree: Json, keys: seq<string>)
    requires Unhidden(tree, keys) && !EndsWith(Join(keys), ".")
    ensures Lookup(tree, Join(keys)) != Null
    decreases |keys|
  {
    var path := Join(keys);
    if path != "" && (|keys| == 1 || path in tree.fields) {
      assert keys[1..] == [] || path in tree.fields;
    } else if path != "" {
      var key, rest := keys[0], Join(keys[1..]);
      assert path[..|key|] == key && path[|key|] == '.' && path[|key| + 1..] == rest;
      assert EndsWith(rest, ".") ==> EndsWith(path, ".");
      UnhiddenIsFound(tree.fields[key], keys[1..]);
      TryKeysFinds(tree.fields, path, |path|, |key|);
    }
  }

  /** A path finds a value exactly if one of its splits leads to one past no null. */
  lemma LookupFinds(tree: Json, path: string)
    requires !EndsWith(path, ".")
    ensures Lookup(tree, path) != Null <==> LeadsToAValue(tree, path)
  {
    if Lookup(tree, path) != Null {
      FoundIsUnhidden(tree, path);
    }
    if keys :| Join(keys) == path && Unhidden(tree, keys) {
      UnhiddenIsFound(tree, keys);
    }
  }

  lemma {:induction false} NothingIsHidden(tree: Json, keys: seq<string>)
    requires tree != Null && NoNulls(tree) && At(tree, keys).Some?
    ensures Unhidden(tree, keys)
    decreases |keys|
  {
    if keys != [] {
      NothingIsHidden(tree.fields[keys[0]], keys[1..]);
    }
  }

  /** Without nulls, a value is found whenever some split of the path reaches one. */
  lemma LookupIsComplete(tree: Json, path: string, value: Json)
    requires tree != Null && NoNulls(tree) && !EndsWith(path, ".")
    requires Reaches(tree, path, value)
    ensures Lookup(tree, path) != Null
  {
    var keys :| Join(keys) == path && At(tree, keys) == Some(value);
    NothingIsHidden(tree, keys);
    LookupFinds(tree, path);
  }

  lemma {:induction false} TryKeysFinds(fields: Dict, path: string, n: nat, k: nat)
    requires path != "" && k <= n <= |path| && Below(fields, path, k) != Null
    requires path in fields ==> fields[path] != Null
    ensures TryKeys(fields, path, n) != Null
    decreases n
  {
    if n > k {
      TryKeysFinds(fields, path, n - 1, k);
    }
  }

  /**
   * A path finds a value exactly if some split of it reaches one, and when all splits agree on
   * the value, that value is found.
   */
  lemma LookupIsExact(tree: Json, path: string, value: Json)
    requires tree != Null && NoNulls(tree) && !EndsWith(path, ".")
    ensures Lookup(tree, path) != Null <==> exists v :: Reaches(tree, path, v)
    ensures Reaches(tree, path, value) && (forall v :: Reaches(tree, path, v) ==> v == value) ==>
      Lookup(tree, path) == value
  {
    LookupIsSound(tree, path);
    if v :| Reaches(tree, path, v) {
      LookupIsComplete(tree, path, v);
    }
  }

  /** With a null in the way, the longest key wins and the value behind the shorter keys is missed. */
  lemma NullHidesAValue()
    ensures var tree := Obj(map["a.b" := Null, "a" := Obj(map["b" := Num(1.0)])]);
            Reaches(tree, "a.b", Num(1.0)) && Lookup(tree, "a.b") == Null
  {
    var tree := Obj(map["a.b" := Null, "a" := Obj(map["b" := Num(1.0)])]);
    var keys := ["a", "b"];
    assert Join(keys) == "a" + "." + Join(["b"]) == "a.b" by {
      assert keys[1..] == ["b"];
    }
    assert At(tree.fields["a"], keys[1..]) == Some(Num(1.0)) by {
      assert keys[1..] == ["b"];
      assert At(Num(1.0), []) == Some(Num(1.0));
      assert ["b"][1..] == [];
    }
    assert At(tree, keys) == Some(Num(1.0));
  }
}
