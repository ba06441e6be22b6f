/**
 * Resolving the references in nested test inputs: dicts and lists are copied, strings are resolved,
 * and everything else, dict keys included, stays as it is.
 */
module RuntimeVariables {
  import opened Wrappers
  import opened JsonTrees
  import opened Variables

  /** A copy of `value` with the references in its strings replaced; None if one has no value. */
  function ResolveRuntime(value: Json, env: Environment): Option<Json>
    decreases value
  {
    match value
    case Text(s) =>
      var resolved := Resolve(s, env);
      if resolved.Some? then Some(Text(resolved.value)) else None
    case Arr(items) =>
      if forall n :: 0 <= n < |items| ==> ResolveRuntime(items[n], env).Some?
      then Some(Arr(seq(|items|, n requires 0 <= n < |items| && ResolveRuntime(items[n], env).Some? =>
        ResolveRuntime(items[n], env).value)))
      else None
    case Obj(fields) =>
      if forall k :: k in fields ==> ResolveRuntime(fields[k], env).Some?
      then Some(Obj(map k | k in fields :: ResolveRuntime(fields[k], env).value))
      else None
    case _ => Some(value)
  }

  /** One step into a nested value. */
  datatype Step = Key(key: string) | Index(n: nat)

  /** The value reached by `steps`. */
  ghost function Reach(value: Json, steps: seq<Step>): Option<Json>
    decreases |steps|
  {
    if steps == [] then Some(value)
    else
      match (steps[0], value)
      case (Key(k), Obj(fields)) => if k in fields then Reach(fields[k], steps[1..]) else None
      case (Index(n), Arr(items)) => if n < |items| then Reach(items[n], steps[1..]) else None
      case _ => None
  }

  /** How a value and its resolved copy compare, apart from what they contain. */
  ghost predicate Corresponds(before: Option<Json>, after: Option<Json>, env: Environment) {
    match (before, after)
    case (None, None) => true
    case (Some(Text(s)), Some(Text(t))) => Resolve(s, env) == Some(t)
    case (Some(Arr(a)), Some(Arr(b))) => |a| == |b|
    case (Some(Obj(f)), Some(Obj(g))) => f.Keys == g.Keys
    case (Some(v), Some(w)) => v == w && !v.Text? && !v.Arr? && !v.Obj?
    case _ => false
  }

  /** The copy has the same shape and the same keys, with every string resolved and nothing else changed. */
  lemma {:induction false} ResolvesInPlace(value: Json, env: Environment, steps: seq<Step>)
    requires ResolveRuntime(value, env).Some?
    ensures Corresponds(Reach(value, steps), Reach(ResolveRuntime(value, env).value, steps), env)
    decreases |steps|
  {
    var copy := ResolveRuntime(value, env).value;
    if steps != [] {
      match (steps[0], value)
      case (Key(k), Obj(fields)) =>
        if k in fields {
          assert copy.fields[k] == ResolveRuntime(fields[k], env).value;
          ResolvesInPlace(fields[k], env, steps[1..]);
        }
      case (Index(n), Arr(items)) =>
        if n < |items| {
          assert copy.items[n] == ResolveRuntime(items[n], env).value;
          ResolvesInPlace(items[n], env, steps[1..]);
        }
      case _ =>
    }
  }

  /** Some string inside `value` holds a reference without a value. */
  ghost predicate HasUnresolved(value: Json, env: Environment) {
    exists steps, s :: Reach(value, steps) == Some(Text(s)) && Resolve(s, env).None?
  }

  /** Resolving fails exactly if some string anywhere inside cannot be resolved. */
  lemma {:induction false} FailsAtSomeString(value: Json, env: Environment)
    ensures ResolveRuntime(value, env).None? <==> HasUnresolved(value, env)
    decreases value
  {
    if ResolveRuntime(value, env).Some? {
      forall steps, s | Reach(value, steps) == Some(Text(s))
        ensures Resolve(s, env).Some?
      {
        ResolvesInPlace(value, env, steps);
      }
    } else {
      var steps, s := FindUnresolved(value, env);
    }
  }

  lemma {:induction false} FindUnresolved(value: Json, env: Environment) returns (steps: seq<Step>, s: string)
    requires ResolveRuntime(value, env).None?
    ensures Reach(value, steps) == Some(Text(s)) && Resolve(s, env).None?
    decreases value
  {
    match value
    case Text(text) =>
      steps, s := [], text;
    case Arr(items) =>
      var n :| 0 <= n < |items| && ResolveRuntime(items[n], env).None?;
      var rest;
      rest, s := FindUnresolved(items[n], env);
      steps := [Index(n)] + rest;
      assert steps[1..] == rest;
    case Obj(fields) =>
      var k :| k in fields && ResolveRuntime(fields[k], env).None?;
      var rest;
      rest, s := FindUnresolved(fields[k], env);
      steps := [Key(k)] + rest;
      assert steps[1..] == rest;
  }
}
