/** Dotted paths, and the string operations the rules read them with. */
module Paths {
  import opened Wrappers

  /** `".".join(segments)` */
  function Join(segments: seq<string>): string {
    if segments == [] then ""
    else if |segments| == 1 then segments[0]
    else segments[0] + "." + Join(segments[1..])
  }

  /** `path.split(".")` */
  function Split(path: string): (segments: seq<string>)
    ensures segments != []
  {
    if path == "" then [""]
    else if path[0] == '.' then [""] + Split(path[1..])
    else
      var rest := Split(path[1..]);
      [[path[0]] + rest[0]] + rest[1..]
  }

  predicate EndsWith(s: string, suffix: string) {
    |suffix| <= |s| && s[|s| - |suffix|..] == suffix
  }

  predicate EndsWithAny(s: string, suffixes: seq<string>) {
    exists n :: 0 <= n < |suffixes| && EndsWith(s, suffixes[n])
  }

  predicate IsAt(s: string, part: string, n: nat) {
    n + |part| <= |s| && s[n..n + |part|] == part
  }

  /** The last position <= n at which `part` occurs. */
  function LastIndex(s: string, part: string, n: nat): (r: Option<nat>)
    ensures r.Some? ==> r.value <= n && IsAt(s, part, r.value)
    ensures forall k: nat :: k <= n && (r.None? || r.value < k) ==> !IsAt(s, part, k)
  {
    if IsAt(s, part, n) then Some(n)
    else if n == 0 then None
    else LastIndex(s, part, n - 1)
  }

  /** The first position >= n at which `part` occurs. */
  function FirstIndex(s: string, part: string, n: nat): (r: Option<nat>)
    requires n <= |s|
    ensures r.Some? ==> n <= r.value && IsAt(s, part, r.value)
    ensures forall k: nat :: n <= k && (r.None? || k < r.value) ==> !IsAt(s, part, k)
    decreases |s| - n
  {
    if IsAt(s, part, n) then Some(n)
    else if n == |s| then None
    else FirstIndex(s, part, n + 1)
  }

  predicate Contains(s: string, part: string) {
    LastIndex(s, part, |s|).Some?
  }

  /** What precedes and what follows the last occurrence of `part`: `s.rsplit(part, 1)`. */
  function CutLast(s: string, part: string): Option<(string, string)> {
    match LastIndex(s, part, |s|)
    case None => None
    case Some(n) => Some((s[..n], s[n + |part|..]))
  }

  /** What precedes the first occurrence of `part`, or all of `s`: `s.split(part, 1)[0]`. */
  function BeforeFirst(s: string, part: string): string {
    match FirstIndex(s, part, 0)
    case None => s
    case Some(n) => s[..n]
  }

  /** What follows the first occurrence of `part`, or nothing: the tail of `s.partition(part)`. */
  function AfterFirst(s: string, part: string): string {
    match FirstIndex(s, part, 0)
    case None => ""
    case Some(n) => s[n + |part|..]
  }

  /** `s.removesuffix(suffix)` */
  function RemoveSuffix(s: string, suffix: string): string {
    if EndsWith(s, suffix) then s[..|s| - |suffix|] else s
  }

  /** `s.removeprefix(prefix)` */
  function RemovePrefix(s: string, prefix: string): string {
    if prefix <= s then s[|prefix|..] else s
  }

  /** `path` lies inside the element at `element`. */
  predicate Inside(path: string, element: string) {
    element + "." <= path
  }

  lemma CutLastAt(s: string, part: string, n: nat)
    requires IsAt(s, part, n) && forall k: nat :: n < k <= |s| ==> !IsAt(s, part, k)
    ensures CutLast(s, part) == Some((s[..n], s[n + |part|..]))
  {
  }

  lemma JoinTwo(a: string, b: string)
    ensures Join([a, b]) == a + "." + b
  {
    assert [a, b][1..] == [b];
  }

  lemma JoinThree(a: string, b: string, c: string)
    ensures Join([a, b, c]) == a + "." + (b + "." + c)
  {
    assert [a, b, c][1..] == [b, c];
    JoinTwo(b, c);
  }

  lemma {:induction false} JoinAppend(a: seq<string>, b: seq<string>)
    requires a != [] && b != []
    ensures Join(a + b) == Join(a) + "." + Join(b)
  {
    if |a| == 1 {
      assert (a + b)[1..] == b;
    } else {
      assert (a + b)[1..] == a[1..] + b;
      JoinAppend(a[1..], b);
      assert Join(a + b) == a[0] + "." + (Join(a[1..]) + "." + Join(b));
      assert Join(a) == a[0] + "." + Join(a[1..]);
    }
  }

  lemma {:induction false} SplitAppend(a: string, b: string)
    ensures Split(a + "." + b) == Split(a) + Split(b)
  {
    var s := a + "." + b;
    if a == "" {
      assert s[0] == '.' && s[1..] == b;
    } else {
      assert s[0] == a[0] && s[1..] == a[1..] + "." + b;
      SplitAppend(a[1..], b);
    }
  }

  lemma {:induction false} SplitNoDot(s: string)
    requires '.' !in s
    ensures Split(s) == [s]
  {
    if s != "" {
      SplitNoDot(s[1..]);
      assert [s[0]] + s[1..] == s;
    }
  }

  /** A string ends in only one way. */
  lemma EndsOnlyOneWay(s: string, one: string, other: string)
    requires EndsWith(s, one) && |one| <= |other| && other[|other| - |one|..] != one
    ensures !EndsWith(s, other)
  {
    if |other| <= |s| {
      assert s[|s| - |other|..][|other| - |one|..] == s[|s| - |one|..];
    }
  }

  predicate NoDot(s: string) { '.' !in s }

  lemma BeforeDot(head: string, tail: string)
    requires NoDot(head)
    ensures BeforeFirst(head + "." + tail, ".") == head && AfterFirst(head + "." + tail, ".") == tail
  {
    var s := head + "." + tail;
    assert IsAt(s, ".", |head|);
    forall k | 0 <= k < |head|
      ensures !IsAt(s, ".", k)
    {
      assert s[k..k + 1] == [head[k]];
    }
    assert FirstIndex(s, ".", 0) == Some(|head|);
    assert s[..|head|] == head && s[|head| + 1..] == tail;
  }

  lemma BeforeNoDot(head: string)
    requires NoDot(head)
    ensures BeforeFirst(head, ".") == head && AfterFirst(head, ".") == ""
  {
    forall k | 0 <= k < |head|
      ensures !IsAt(head, ".", k)
    {
      assert head[k..k + 1] == [head[k]];
    }
  }
}
