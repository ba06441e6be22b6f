/**
 * What a text with references resolves to, said of the text alone: how a reference is spelled, which
 * value takes its place, and that the text around it stays.
 */
module References {
  import opened Wrappers
  import opened Variables

  // ---------------------------------------------------------------- Around a reference

  /** Every `$` of the text belongs to a reference, so that nothing behind the text is read together with it. */
  ghost predicate IsClosed(text: string) { HasNoDollars(Scan(text)) }

  ghost predicate HasNoDollars(pieces: seq<Piece>) {
    forall p :: p in pieces && p.Literal? ==> p.c != '$'
  }

  lemma PlainTextIsClosed(text: string)
    requires '$' !in text
    ensures IsClosed(text)
  {
    NoDollarNoReference(text);
    ContainsMeansScanned(text);
    LiteralsAreOfTheText(text);
  }

  lemma {:induction false} LiteralsAreOfTheText(text: string)
    ensures forall p :: p in Scan(text) && p.Literal? ==> p.c in text
    decreases |text|
  {
    if text != "" {
      var p, rest := FirstRead(text);
      LiteralsAreOfTheText(rest);
      assert forall c :: c in rest ==> c in text;
    }
  }

  ghost function Joined(one: Option<string>, two: Option<string>): Option<string> {
    if one.Some? && two.Some? then Some(one.value + two.value) else None
  }

  lemma JoinedInTurn(one: Option<string>, two: Option<string>, three: Option<string>)
    ensures Joined(Joined(one, two), three) == Joined(one, Joined(two, three))
  {
    if one.Some? && two.Some? && three.Some? {
      assert (one.value + two.value) + three.value == one.value + (two.value + three.value);
    }
  }

  /** What pieces of text become together. */
  ghost function Together(pieces: seq<Piece>, env: Environment): Option<string> {
    if pieces == [] then Some("") else Joined(Replacement(pieces[0], env), Together(pieces[1..], env))
  }

  lemma {:induction false} ResolvePieces(text: string, env: Environment)
    ensures Resolve(text, env) == Together(Scan(text), env)
    decreases |text|
  {
    if text != "" {
      var p, rest := FirstPiece(text, env);
      ResolvePieces(rest, env);
      assert ([p] + Scan(rest))[1..] == Scan(rest);
    }
  }

  lemma {:induction false} PiecesApart(one: seq<Piece>, two: seq<Piece>, env: Environment)
    ensures Together(one + two, env) == Joined(Together(one, env), Together(two, env))
  {
    if one == [] {
      assert one + two == two;
      NothingBefore(Together(two, env));
    } else {
      assert (one + two)[1..] == one[1..] + two;
      PiecesApart(one[1..], two, env);
      JoinedInTurn(Replacement(one[0], env), Together(one[1..], env), Together(two, env));
    }
  }

  lemma NothingBefore(other: Option<string>)
    ensures Joined(Some(""), other) == other
  {
    if other.Some? {
      assert "" + other.value == other.value;
    }
  }

  lemma {:induction false} WrittenApart(one: seq<Piece>, two: seq<Piece>)
    ensures Written(one + two) == Written(one) + Written(two)
  {
    if one == [] {
      assert one + two == two && Written(one) + Written(two) == Written(two);
    } else {
      assert (one + two)[1..] == one[1..] + two;
      WrittenApart(one[1..], two);
      assert Written(one + two) == Source(one[0]) + (Written(one[1..]) + Written(two));
    }
  }

  lemma {:induction false} StillLeftmost(one: seq<Piece>, two: seq<Piece>)
    requires Leftmost(one) && Leftmost(two) && HasNoDollars(one)
    ensures Leftmost(one + two)
  {
    if one == [] {
      assert one + two == two;
    } else {
      var all := one + two;
      assert all[1..] == one[1..] + two && one[0] in one && all[0] == one[0];
      StillLeftmost(one[1..], two);
      if one[0].Literal? {
        StartsWithNoDollar(all);
      }
    }
  }

  lemma StartsWithNoDollar(pieces: seq<Piece>)
    requires pieces != [] && pieces[0].Literal? && pieces[0].c != '$'
    ensures Match(Written(pieces)).None?
  {
    assert Written(pieces)[0] == pieces[0].c;
  }

  /** A closed text and what follows it are read, and resolved, apart. */
  lemma ResolveApart(text: string, more: string, env: Environment)
    requires IsClosed(text)
    ensures Scan(text + more) == Scan(text) + Scan(more)
    ensures Resolve(text + more, env) == Joined(Resolve(text, env), Resolve(more, env))
  {
    ScanReads(text);
    ScanReads(more);
    StillLeftmost(Scan(text), Scan(more));
    WrittenApart(Scan(text), Scan(more));
    ScanIsTheOnlyReading(Scan(text) + Scan(more));
    ResolvePieces(text, env);
    ResolvePieces(more, env);
    ResolvePieces(text + more, env);
    PiecesApart(Scan(text), Scan(more), env);
  }

  /** So is a reference and what follows it. */
  lemma FirstResolves(r: Reference, rest: string, env: Environment)
    requires Valid(r)
    ensures Resolve(Render(r) + rest, env) == Joined(ValueOf(r, env), Resolve(rest, env))
  {
    var text := Render(r) + rest;
    MatchIsComplete(r, rest);
    assert text[|Render(r)|..] == rest;
  }

  // ---------------------------------------------------------------- One reference

  predicate IsSet(env: Environment, name: string) { name in env && env[name] != "" }

  /** `${NAME}` in a text becomes the value of the variable, and the text cannot be resolved without one. */
  lemma NameIsReplaced(before: string, name: string, after: string, env: Environment)
    requires IsClosed(before) && ValidName(name) && Resolve(before, env).Some? && Resolve(after, env).Some?
    ensures Resolve(before + ("${" + name + "}" + after), env) ==
      if IsSet(env, name) then Some(Resolve(before, env).value + (env[name] + Resolve(after, env).value)) else None
  {
    var r := Reference(name, None);
    assert Render(r) == "${" + name + "}";
    FirstResolves(r, after, env);
    ResolveApart(before, "${" + name + "}" + after, env);
  }

  /** `${NAME:-default}` becomes the value of the variable, or the default if it is unset or empty. */
  lemma DefaultIsReplaced(before: string, name: string, default: string, after: string, env: Environment)
    requires IsClosed(before) && ValidName(name) && '}' !in default
    requires Resolve(before, env).Some? && Resolve(after, env).Some?
    ensures Resolve(before + ("${" + name + ":-" + default + "}" + after), env) ==
      Some(Resolve(before, env).value
        + ((if IsSet(env, name) then env[name] else default) + Resolve(after, env).value))
  {
    var r := Reference(name, Some(default));
    assert Render(r) == "${" + name + ":-" + default + "}";
    FirstResolves(r, after, env);
    ResolveApart(before, "${" + name + ":-" + default + "}" + after, env);
  }

  /** So the value of a variable comes before a default: with DB_HOST=prod, `${DB_HOST:-localhost}` is `prod`. */
  lemma ValueBeforeDefault(name: string, default: string, env: Environment)
    requires ValidName(name) && '}' !in default
    ensures Resolve("${" + name + ":-" + default + "}", env) == Some(if IsSet(env, name) then env[name] else default)
    ensures Resolve("${" + name + "}", env) == if IsSet(env, name) then Some(env[name]) else None
  {
    var value := if IsSet(env, name) then env[name] else default;
    PlainTextIsClosed("");
    assert Resolve("", env) == Some("");
    DefaultIsReplaced("", name, default, "", env);
    NameIsReplaced("", name, "", env);
    NothingAround("${" + name + ":-" + default + "}");
    NothingAround("${" + name + "}");
    NothingAround(value);
  }

  lemma NothingAround(text: string)
    ensures "" + (text + "") == text
  {
  }

  /** The letters, digits and the underscore make up names; no digit starts one. */
  lemma NamesAreSpelled(name: string)
    ensures ValidName(name) <==>
      && name != "" && !(('0' as int) <= (name[0] as int) <= ('9' as int))
      && forall n :: 0 <= n < |name| ==>
        || 48 <= (name[n] as int) <= 57 || 65 <= (name[n] as int) <= 90 || (name[n] as int) == 95
        || 97 <= (name[n] as int) <= 122
  {
  }
}
