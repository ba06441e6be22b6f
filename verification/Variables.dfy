/**
 * `${VAR}` references in contract values (ODCS v3.2.0, RFC 0050): finding them and
 * replacing them in one pass.
 */
module Variables {
  import opened Wrappers
  import opened JsonTrees

  predicate IsNameStart(c: char) { 'A' <= c <= 'Z' || 'a' <= c <= 'z' || c == '_' }

  predicate IsNameChar(c: char) { IsNameStart(c) || '0' <= c <= '9' }

  /** A reference: a name, and perhaps a default. */
  datatype Reference = Reference(name: string, default: Option<string>)

  predicate ValidName(name: string) {
    name != "" && IsNameStart(name[0]) && forall n :: 0 <= n < |name| ==> IsNameChar(name[n])
  }

  predicate Valid(r: Reference) {
    ValidName(r.name) && (r.default.Some? ==> '}' !in r.default.value)
  }

  /** How a reference ends behind its name. */
  function RenderTail(default: Option<string>): string {
    match default
    case None => "}"
    case Some(d) => ":-" + d + "}"
  }

  /** How a reference is written. */
  function Render(r: Reference): string {
    "${" + r.name + RenderTail(r.default)
  }

  /** The number of name characters at the start of `s`. */
  function NameLength(s: string): (n: nat)
    ensures n <= |s| && (forall k :: 0 <= k < n ==> IsNameChar(s[k])) && (n < |s| ==> !IsNameChar(s[n]))
  {
    if s == "" || !IsNameChar(s[0]) then 0 else 1 + NameLength(s[1..])
  }

  /** The position of the first closing brace. */
  function BraceIndex(s: string): (r: Option<nat>)
    ensures r.Some? ==> r.value < |s| && s[r.value] == '}' && '}' !in s[..r.value]
    ensures r.None? ==> '}' !in s
  {
    if s == "" then None
    else if s[0] == '}' then Some(0)
    else match BraceIndex(s[1..])
      case None => None
      case Some(n) => Some(n + 1)
  }

  /** What follows a name: a closing brace, or a default and a closing brace. */
  function MatchTail(rest: string): Option<Option<string>> {
    if rest != "" && rest[0] == '}' then Some(None)
    else if |rest| < 2 || rest[0] != ':' || rest[1] != '-' then None
    else match BraceIndex(rest[2..])
      case None => None
      case Some(k) => Some(Some(rest[2..2 + k]))
  }

  /** The reference at the start of `s`, if there is one. */
  function Match(s: string): Option<Reference> {
    if |s| < 2 || s[0] != '$' || s[1] != '{' then None
    else
      var n := NameLength(s[2..]);
      if n == 0 || !IsNameStart(s[2]) then None
      else match MatchTail(s[2 + n..])
        case None => None
        case Some(default) => Some(Reference(s[2..2 + n], default))
  }

  lemma MatchTailIsSound(rest: string)
    requires MatchTail(rest).Some?
    ensures var default := MatchTail(rest).value;
      RenderTail(default) <= rest && (default.Some? ==> '}' !in default.value)
  {
    var default := MatchTail(rest).value;
    if default.Some? {
      var k := BraceIndex(rest[2..]).value;
      assert rest[2..][..k] == default.value;
      assert rest[..2 + k + 1] == RenderTail(default);
    }
  }

  lemma PutTogether(s: string, name: string, tail: string)
    requires |s| >= 2 + |name| && s[0] == '$' && s[1] == '{' && s[2..2 + |name|] == name && tail <= s[2 + |name|..]
    ensures "${" + name + tail <= s
  {
    assert s[..2 + |name|] == "${" + name;
    assert s[..2 + |name| + |tail|] == s[..2 + |name|] + s[2 + |name|..][..|tail|];
  }

  /** A match is a valid reference that `s` starts with. */
  lemma MatchIsSound(s: string)
    ensures Match(s).Some? ==> Valid(Match(s).value) && Render(Match(s).value) <= s
  {
    if Match(s).Some? {
      var r := Match(s).value;
      var n := NameLength(s[2..]);
      var rest := s[2 + n..];
      forall k | 0 <= k < n
        ensures IsNameChar(r.name[k])
      {
        assert r.name[k] == s[2..][k];
      }
      MatchTailIsSound(rest);
      PutTogether(s, r.name, RenderTail(r.default));
    }
  }

  lemma {:induction false} NameLengthIs(name: string, rest: string)
    requires forall n :: 0 <= n < |name| ==> IsNameChar(name[n])
    requires rest != "" && !IsNameChar(rest[0])
    ensures NameLength(name + rest) == |name|
  {
    if name == "" {
      assert name + rest == rest;
    } else {
      assert (name + rest)[1..] == name[1..] + rest;
      NameLengthIs(name[1..], rest);
    }
  }

  lemma {:induction false} BraceIndexIs(before: string, rest: string)
    requires '}' !in before
    ensures BraceIndex(before + "}" + rest) == Some(|before|)
  {
    var s := before + "}" + rest;
    if before != "" {
      assert s[1..] == before[1..] + "}" + rest;
      BraceIndexIs(before[1..], rest);
    }
  }

  lemma MatchTailIsComplete(default: Option<string>, rest: string)
    requires default.Some? ==> '}' !in default.value
    ensures MatchTail(RenderTail(default) + rest) == Some(default)
  {
    if default.Some? {
      var d := default.value;
      var s := RenderTail(default) + rest;
      assert s[2..] == d + "}" + rest;
      BraceIndexIs(d, rest);
      assert s[2..2 + |d|] == d;
    }
  }

  /** Whatever starts with a valid reference matches exactly that reference. */
  lemma MatchIsComplete(r: Reference, rest: string)
    requires Valid(r)
    ensures Match(Render(r) + rest) == Some(r)
  {
    var s, tail := Render(r) + rest, RenderTail(r.default) + rest;
    assert s[2..] == r.name + tail;
    NameLengthIs(r.name, tail);
    assert s[2..2 + |r.name|] == r.name && s[2 + |r.name|..] == tail;
    MatchTailIsComplete(r.default, rest);
  }

  // ---------------------------------------------------------------- One pass over a value

  /** A character outside all references, or a reference. */
  datatype Piece = Literal(c: char) | Ref(r: Reference)

  /** The non-overlapping references of `s`, leftmost first, and the text between them. */
  function Scan(s: string): seq<Piece>
    decreases |s|
  {
    if s == "" then []
    else match Match(s)
      case None => [Literal(s[0])] + Scan(s[1..])
      case Some(r) => MatchIsSound(s); [Ref(r)] + Scan(s[|Render(r)|..])
  }

  function Source(p: Piece): string { if p.Literal? then [p.c] else Render(p.r) }

  /** The text the pieces were read from. */
  function Written(pieces: seq<Piece>): string {
    if pieces == [] then "" else Source(pieces[0]) + Written(pieces[1..])
  }

  /** No literal character starts a reference in the text that follows it. */
  ghost predicate Leftmost(pieces: seq<Piece>) {
    pieces != [] ==>
      && (if pieces[0].Literal? then Match(Written(pieces)).None? else Valid(pieces[0].r))
      && Leftmost(pieces[1..])
  }

  /** The leftmost reading of a text exists and is the only one. */
  lemma {:induction false} ScanReads(s: string)
    ensures Written(Scan(s)) == s && Leftmost(Scan(s))
    decreases |s|
  {
    if s != "" {
      var p, rest := FirstRead(s);
      ScanReads(rest);
      assert ([p] + Scan(rest))[1..] == Scan(rest);
    }
  }

  /** Reading a value starts with one piece. */
  lemma FirstRead(s: string) returns (p: Piece, rest: string)
    requires s != ""
    ensures |rest| < |s| && Scan(s) == [p] + Scan(rest) && s == Source(p) + rest
    ensures if p.Literal? then Match(s).None? else Valid(p.r)
  {
    match Match(s)
    case None =>
      p, rest := Literal(s[0]), s[1..];
      assert s == [s[0]] + rest;
    case Some(r) =>
      MatchIsSound(s);
      p, rest := Ref(r), s[|Render(r)|..];
      assert s == Render(r) + rest;
  }

  lemma {:induction false} ScanIsTheOnlyReading(pieces: seq<Piece>)
    requires Leftmost(pieces)
    ensures Scan(Written(pieces)) == pieces
  {
    if pieces != [] {
      var s, rest := Written(pieces), pieces[1..];
      ScanIsTheOnlyReading(rest);
      assert pieces == [pieces[0]] + rest;
      if pieces[0].Literal? {
        assert s == [pieces[0].c] + Written(rest) && s[1..] == Written(rest);
      } else {
        var r := pieces[0].r;
        MatchIsComplete(r, Written(rest));
        assert s == Render(r) + Written(rest) && s[|Render(r)|..] == Written(rest);
      }
    }
  }

  type Environment = map<string, string>

  /** What replaces a reference; None if the variable is unset or empty and has no default. */
  function ValueOf(r: Reference, env: Environment): Option<string> {
    if r.name in env && env[r.name] != "" then Some(env[r.name]) else r.default
  }

  /** `value` with every reference replaced; None is the UnresolvedVariableError. */
  function Resolve(value: string, env: Environment): Option<string>
    decreases |value|
  {
    if value == "" then Some("")
    else match Match(value)
      case None =>
        var rest := Resolve(value[1..], env);
        if rest.Some? then Some([value[0]] + rest.value) else None
      case Some(r) =>
        MatchIsSound(value);
        var replaced, rest := ValueOf(r, env), Resolve(value[|Render(r)|..], env);
        if replaced.Some? && rest.Some? then Some(replaced.value + rest.value) else None
  }

  ghost predicate Unresolved(p: Piece, env: Environment) {
    p.Ref? && ValueOf(p.r, env).None?
  }

  /** The pieces with every reference replaced and every other character kept. */
  ghost function Substituted(pieces: seq<Piece>, env: Environment): string
    requires forall p :: p in pieces ==> !Unresolved(p, env)
  {
    if pieces == [] then ""
    else
      assert pieces[0] in pieces && !Unresolved(pieces[0], env);
      (if pieces[0].Literal? then [pieces[0].c] else ValueOf(pieces[0].r, env).value) + Substituted(pieces[1..], env)
  }

  /** What one piece becomes. */
  ghost function Replacement(p: Piece, env: Environment): Option<string> {
    if p.Literal? then Some([p.c]) else ValueOf(p.r, env)
  }

  lemma SubstitutedCons(p: Piece, rest: seq<Piece>, env: Environment)
    requires !Unresolved(p, env) && forall q :: q in rest ==> !Unresolved(q, env)
    ensures forall q :: q in [p] + rest ==> !Unresolved(q, env)
    ensures Substituted([p] + rest, env) == Replacement(p, env).value + Substituted(rest, env)
  {
    assert ([p] + rest)[1..] == rest;
  }

  /** Reading a value starts with one piece, and resolving it with what that piece becomes. */
  lemma FirstPiece(value: string, env: Environment) returns (p: Piece, rest: string)
    requires value != ""
    ensures |rest| < |value| && Scan(value) == [p] + Scan(rest)
    ensures Resolve(value, env) ==
      if Replacement(p, env).Some? && Resolve(rest, env).Some?
        then Some(Replacement(p, env).value + Resolve(rest, env).value) else None
  {
    match Match(value)
    case None =>
      p, rest := Literal(value[0]), value[1..];
    case Some(r) =>
      MatchIsSound(value);
      p, rest := Ref(r), value[|Render(r)|..];
  }

  /**
   * Resolving fails exactly if some matched reference has no value, and otherwise replaces each
   * matched reference and nothing else.
   */
  lemma {:induction false} ResolveSubstitutes(value: string, env: Environment)
    ensures Resolve(value, env).None? <==> exists p :: p in Scan(value) && Unresolved(p, env)
    ensures Resolve(value, env).Some? ==> Resolve(value, env).value == Substituted(Scan(value), env)
    decreases |value|
  {
    if value != "" {
      var p, rest := FirstPiece(value, env);
      ResolveSubstitutes(rest, env);
      assert Unresolved(p, env) <==> Replacement(p, env).None?;
      assert p in [p] + Scan(rest);
      if Resolve(value, env).Some? {
        SubstitutedCons(p, Scan(rest), env);
      } else if Resolve(rest, env).None? {
        var q :| q in Scan(rest) && Unresolved(q, env);
        assert q in [p] + Scan(rest);
      }
    }
  }

  /** `contains_variables`: a reference is found anywhere in the text. */
  predicate ContainsVariables(value: string) {
    exists n :: 0 <= n <= |value| && Match(value[n..]).Some?
  }

  lemma ContainsStep(value: string)
    requires value != ""
    ensures ContainsVariables(value) <==> Match(value).Some? || ContainsVariables(value[1..])
  {
    assert value[0..] == value;
    assert forall n :: 0 <= n <= |value| - 1 ==> value[1..][n..] == value[n + 1..];
    if ContainsVariables(value[1..]) {
      var n :| 0 <= n <= |value| - 1 && Match(value[1..][n..]).Some?;
      assert Match(value[n + 1..]).Some?;
    }
    if ContainsVariables(value) && Match(value).None? {
      var n :| 0 <= n <= |value| && Match(value[n..]).Some?;
      assert Match(value[1..][n - 1..]).Some?;
    }
  }

  /** A text contains a reference exactly if one pass over it replaces one. */
  lemma {:induction false} ContainsMeansScanned(value: string)
    ensures ContainsVariables(value) <==> exists p :: p in Scan(value) && p.Ref?
    decreases |value|
  {
    if value == "" {
      assert value[0..] == value;
    } else {
      ContainsStep(value);
      if Match(value).None? {
        ContainsMeansScanned(value[1..]);
        assert Scan(value) == [Literal(value[0])] + Scan(value[1..]);
      } else {
        assert Ref(Match(value).value) in Scan(value);
      }
    }
  }

  lemma NoDollarNoReference(value: string)
    requires '$' !in value
    ensures !ContainsVariables(value)
  {
    forall n | 0 <= n <= |value|
      ensures Match(value[n..]).None?
    {
      assert n < |value| ==> value[n..][0] == value[n];
    }
  }

  lemma {:induction false} ResolveKeepsPlainText(value: string, env: Environment)
    requires !ContainsVariables(value)
    ensures Resolve(value, env) == Some(value)
  {
    if value != "" {
      ContainsStep(value);
      ResolveKeepsPlainText(value[1..], env);
      assert value == [value[0]] + value[1..];
    }
  }

  /** Every `$` belongs to a reference, and no replacement brings a new one. */
  ghost predicate DollarsAreReplaced(pieces: seq<Piece>, env: Environment) {
    forall p :: p in pieces ==>
      if p.Literal? then p.c != '$' else ValueOf(p.r, env).Some? ==> '$' !in ValueOf(p.r, env).value
  }

  lemma {:induction false} SubstitutedHasNoDollar(pieces: seq<Piece>, env: Environment)
    requires forall p :: p in pieces ==> !Unresolved(p, env)
    requires DollarsAreReplaced(pieces, env)
    ensures '$' !in Substituted(pieces, env)
  {
    if pieces != [] {
      assert pieces[0] in pieces;
      SubstitutedHasNoDollar(pieces[1..], env);
    }
  }

  /** Then one pass is enough: the result holds no reference, and resolving it again changes nothing. */
  lemma OnePassIsEnough(value: string, env: Environment, other: Environment)
    requires DollarsAreReplaced(Scan(value), env) && Resolve(value, env).Some?
    ensures !ContainsVariables(Resolve(value, env).value)
    ensures Resolve(Resolve(value, env).value, other) == Resolve(value, env)
  {
    ResolveSubstitutes(value, env);
    SubstitutedHasNoDollar(Scan(value), env);
    NoDollarNoReference(Resolve(value, env).value);
    ResolveKeepsPlainText(Resolve(value, env).value, other);
  }

  /** With A unset, `${A:-${B}}` resolves to `${B}`: a default may hold a new reference. */
  lemma NestedDefaultLeavesAReference(a: string, b: string, env: Environment)
    requires ValidName(a) && ValidName(b) && a !in env
    ensures Resolve("${" + a + ":-" + "${" + b + "}" + "}", env) == Some("${" + b + "}")
    ensures ContainsVariables("${" + b + "}")
  {
    var r := Reference(a, Some("${" + b));
    assert '}' !in b by {
      assert forall n :: 0 <= n < |b| ==> IsNameChar(b[n]);
    }
    var value := Render(r) + "}";
    assert value == "${" + a + ":-" + "${" + b + "}" + "}";
    MatchIsComplete(r, "}");
    assert value[|Render(r)|..] == "}";
    BraceResolves(env);
    assert Resolve(value, env) == Some("${" + b + "}");
    PlainReference(b);
  }

  lemma BraceResolves(env: Environment)
    ensures Resolve("}", env) == Some("}")
  {
    assert Match("}").None? && "}"[1..] == "" && ['}'] + "" == "}";
    assert Resolve("", env) == Some("");
  }

  lemma PlainReference(b: string)
    requires ValidName(b)
    ensures ContainsVariables("${" + b + "}")
  {
    var r := Reference(b, None);
    MatchIsComplete(r, "");
    var s := "${" + b + "}";
    assert s[0..] == Render(r) + "";
  }
}
