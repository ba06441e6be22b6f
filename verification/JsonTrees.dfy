/**
 * Contracts as the change engine sees them: trees of dicts, lists and scalars.
 * A dict is a map, so two dicts are equal whatever the order of their keys.
 */
module JsonTrees {
  import opened Wrappers

  datatype Json =
    | Null
    | Flag(flag: bool)
    | Num(num: real)
    | Text(text: string)
    | Arr(items: seq<Json>)
    | Obj(fields: map<string, Json>)

  type Dict = map<string, Json>

  /** `d.get(key)`; an absent key reads as Null. */
  function Get(d: Dict, key: string): Json {
    if key in d then d[key] else Null
  }

  /** The dict held by a value, or the empty dict, as `x or {}` reads unless it raises. */
  function Fields(j: Json): Dict {
    if j.Obj? then j.fields else map[]
  }

  /** Python truthiness. */
  predicate Truthy(j: Json) {
    match j
    case Null => false
    case Flag(b) => b
    case Num(r) => r != 0.0
    case Text(s) => s != ""
    case Arr(items) => items != []
    case Obj(fields) => fields != map[]
  }

  /** A value that raises where the code reads a dict out of it, as in `(x or {}).get(key)`. */
  predicate NoDict(j: Json) { Truthy(j) && !j.Obj? }

  /** A value that Python cannot hash, and so cannot put into a set or look up in a dict. */
  predicate NoHash(j: Json) { j.Arr? || j.Obj? }

  /** The value reached by following `keys` through nested dicts. */
  function At(tree: Json, keys: seq<string>): Option<Json>
    decreases |keys|
  {
    if keys == [] then Some(tree)
    else if tree.Obj? && keys[0] in tree.fields then At(tree.fields[keys[0]], keys[1..])
    else None
  }

  /** No key anywhere below `tree` maps to None, as in a contract dumped with exclude_none. */
  ghost predicate NoNulls(tree: Json)
  {
    tree.Obj? ==> forall k :: k in tree.fields ==> tree.fields[k] != Null && NoNulls(tree.fields[k])
  }

  lemma {:induction false} AtAppend(tree: Json, keys: seq<string>, more: seq<string>)
    ensures At(tree, keys + more)
         == if At(tree, keys).Some? then At(At(tree, keys).value, more) else None
    decreases |keys|
  {
    if keys == [] {
      assert keys + more == more;
    } else {
      assert (keys + more)[1..] == keys[1..] + more;
      if tree.Obj? && keys[0] in tree.fields {
        AtAppend(tree.fields[keys[0]], keys[1..], more);
      }
    }
  }

  /** Nothing, off, zero and whatever is empty count as false. */
  lemma WhatIsFalse(j: Json)
    ensures !Truthy(j) <==>
      j == Null || j == Flag(false) || j == Num(0.0) || j == Text("") || j == Arr([]) || j == Obj(map[])
  {
  }

  /** Python hashes scalars only. */
  lemma ScalarsAreHashed(j: Json)
    ensures !NoHash(j) <==> j == Null || j.Flag? || j.Num? || j.Text?
  {
  }
}
