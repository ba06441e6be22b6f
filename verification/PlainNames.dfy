/**
 * Contracts whose names have no dots: their paths are read as they were joined, and nothing is ambiguous.
 */
module PlainNames {
  import opened Wrappers
  import opened JsonTrees
  import opened Paths
  import opened Lookups
  import opened QualityRules
  import opened DetectorTheorems
  import opened Diffs
  import opened Places
  import opened Runs

  /** Every key of a dict and every text in a list, at any depth. */
  ghost predicate AllNames(tree: Json, p: string -> bool)
    decreases tree
  {
    && (tree.Obj? ==> forall k :: k in tree.fields ==> p(k) && AllNames(tree.fields[k], p))
    && (tree.Arr? ==> forall n :: 0 <= n < |tree.items| ==> AllNames(tree.items[n], p) && TextIs(tree.items[n], p))
  }

  predicate TextIs(v: Json, p: string -> bool) { v.Text? ==> p(v.text) }

  predicate IsPlain(s: string) { s != "" && NoDot(s) }

  ghost predicate Plain(tree: Json) { AllNames(tree, IsPlain) }

  lemma {:induction false} StandingNames(tree: Json, keys: seq<string>, v: Json, p: string -> bool)
    requires Stands(tree, keys, v) && AllNames(tree, p)
    ensures (forall c :: 0 <= c < |keys| ==> p(keys[c])) && AllNames(v, p)
    decreases tree
  {
    if keys == [] && tree == v {
    } else if tree.Obj? {
      StandingNames(tree.fields[keys[0]], keys[1..], v, p);
    } else {
      var n :| 0 <= n < |tree.items| && Stands(tree.items[n], keys, v);
      StandingNames(tree.items[n], keys, v, p);
    }
  }

  lemma ShownNames(tree: Json, keys: seq<string>, p: string -> bool)
    requires ShowsIn(tree, keys) && AllNames(tree, p)
    ensures forall c :: 0 <= c < |keys| ==> p(keys[c])
  {
    if v :| Stands(tree, keys, v) {
      StandingNames(tree, keys, v, p);
    } else {
      var last := Text(keys[|keys| - 1]);
      var items :| Stands(tree, keys[..|keys| - 1], Arr(items)) && last in items;
      StandingNames(tree, keys[..|keys| - 1], Arr(items), p);
      var n :| 0 <= n < |items| && items[n] == last;
      assert TextIs(items[n], p);
    }
  }

  /** Among names without dots, none continues another. */
  lemma PlainAreWellNamed(before: Json, after: Json, path: seq<string>)
    requires Plain(before) && Plain(after) && forall c :: 0 <= c < |path| ==> IsPlain(path[c])
    ensures WellNamed(before, after, path)
  {
    forall y | Shows(before, after, y)
      ensures !Dotted(path, y) && !Dotted(y, path)
    {
      ShownNames(if ShowsIn(before, y) then before else after, y, IsPlain);
      PlainIsNotDotted(path, y);
      PlainIsNotDotted(y, path);
    }
  }

  lemma PlainIsNotDotted(x: seq<string>, y: seq<string>)
    requires forall c :: 0 <= c < |y| ==> IsPlain(y[c])
    ensures !Dotted(x, y)
  {
    forall c: nat
      ensures !DottedAt(x, y, c)
    {
      if c < |x| && c < |y| {
        ContinuedHasADot(x[c], y[c]);
      }
    }
  }

  lemma ContinuedHasADot(a: string, b: string)
    ensures a + "." <= b ==> !NoDot(b)
  {
    if a + "." <= b {
      assert b[|a|] == (a + ".")[|a|] == '.';
    }
  }

  // ---------------------------------------------------------------- Reading plain paths

  lemma {:induction false} SplitJoin(keys: seq<string>)
    requires keys != [] && forall c :: 0 <= c < |keys| ==> NoDot(keys[c])
    ensures Split(Join(keys)) == keys
  {
    SplitNoDot(keys[0]);
    if |keys| > 1 {
      JoinCons(keys);
      SplitAppend(keys[0], Join(keys[1..]));
      SplitJoin(keys[1..]);
    }
  }

  /** A plain path leads to one value only. */
  lemma PlainPathLeadsOnce(tree: Json, keys: seq<string>, v: Json)
    requires Plain(tree) && keys != [] && At(tree, keys).Some? && Reaches(tree, Join(keys), v)
    ensures At(tree, keys) == Some(v)
  {
    var other :| Join(other) == Join(keys) && At(tree, other) == Some(v);
    AtStands(tree, keys, At(tree, keys).value);
    StandingNames(tree, keys, At(tree, keys).value, IsPlain);
    AtStands(tree, other, v);
    StandingNames(tree, other, v, IsPlain);
    SplitJoin(keys);
    FieldIsNotEmpty(keys);
    SplitJoin(other);
  }

  lemma PlainHoldsRule(tree: Json, owner: seq<string>, name: string, rule: Dict)
    requires Plain(tree) && NoNulls(tree) && tree.Obj? && owner != []
    requires At(tree, RuleKeys(owner, name)) == Some(Obj(rule))
    ensures HoldsRule(tree, owner, name, rule)
  {
    RulePath(owner, name);
    forall v | Reaches(tree, Join(owner) + QUALITY + name, v)
      ensures v == Obj(rule)
    {
      PlainPathLeadsOnce(tree, RuleKeys(owner, name), v);
    }
  }

  /** In a plain path, a section `quality` is a key of that name. */
  lemma PlainLastQuality(keys: seq<string>, owner: seq<string>)
    requires owner != [] && owner < keys && forall c :: 0 <= c < |keys| ==> NoDot(keys[c])
    requires forall c :: |owner| < c < |keys| ==> keys[c] != "quality"
    ensures LastQuality(Join(keys), Join(owner))
  {
    var path := Join(keys);
    forall k: nat | |Join(owner)| < k <= |path|
      ensures !IsAt(path, QUALITY, k)
    {
      if IsAt(path, QUALITY, k) {
        var c := QualityIsAKey(keys, owner, k);
      }
    }
  }

  lemma AroundQuality(path: string, owner: string, more: string, k: nat) returns (u: string, v: string)
    requires path == owner + "." + more && |owner| < k && IsAt(path, QUALITY, k)
    ensures more == u + "." + ("quality" + "." + v)
  {
    var n := k - |owner| - 1;
    assert path[|owner| + 1..] == more;
    u, v := more[..n], more[n + |QUALITY|..];
    assert more[n..n + |QUALITY|] == path[k..k + |QUALITY|] == "." + ("quality" + ".");
    assert more == u + more[n..n + |QUALITY|] + v;
  }

  lemma QualityIsAKey(keys: seq<string>, owner: seq<string>, k: nat) returns (c: nat)
    requires owner != [] && owner < keys && forall c :: 0 <= c < |keys| ==> NoDot(keys[c])
    requires |Join(owner)| < k && IsAt(Join(keys), QUALITY, k)
    ensures |owner| < c < |keys| && keys[c] == "quality"
  {
    var more := keys[|owner|..];
    assert keys == owner + more;
    JoinAppend(owner, more);
    var u, v := AroundQuality(Join(keys), Join(owner), Join(more), k);
    SplitAppend(u, "quality" + "." + v);
    SplitAppend("quality", v);
    SplitNoDot("quality");
    SplitJoin(more);
    c := |owner| + |Split(u)|;
    assert more == Split(u) + (["quality"] + Split(v));
    assert more[|Split(u)|] == "quality";
  }

  // ---------------------------------------------------------------- Below a rule

  /** Nothing is mistaken for a key without dots. */
  lemma PlainIsUnmistaken(r: Run, owner: seq<string>, name: string, old': Dict, new': Dict, key: string)
    requires Plain(r.before) && Plain(r.after) && Flips(r, owner, name, old', new', key)
    ensures IsUnmistaken(r, owner, name, old', new', key)
  {
    var rule := RuleKeys(owner, name);
    RuleIsShown(r, owner, name, old', new', key);
    AtStands(r.before, rule, Obj(old'));
    AtStands(r.after, rule, Obj(new'));
    StandingNames(r.before, rule, Obj(old'), IsPlain);
    StandingNames(r.after, rule, Obj(new'), IsPlain);
    PlainAreWellNamed(r.before, r.after, rule + [key]);
  }

  predicate NotQuality(s: string) { s != "quality" }

  /** In plain contracts, nothing behind a rule looks like another section if no name in it is `quality`. */
  lemma PlainRuleIsLast(r: Run, owner: seq<string>, name: string, old': Dict, new': Dict)
    requires IsRun(r) && Plain(r.before) && Plain(r.after) && owner != [] && NotQuality(name)
    requires At(r.before, RuleKeys(owner, name)) == Some(Obj(old')) && AllNames(Obj(old'), NotQuality)
    requires At(r.after, RuleKeys(owner, name)) == Some(Obj(new')) && AllNames(Obj(new'), NotQuality)
    ensures RuleIsLast(r, owner, name)
  {
    var rule := RuleKeys(owner, name);
    AtStands(r.before, rule, Obj(old'));
    StandingNames(r.before, rule, Obj(old'), IsPlain);
    PlainAreWellNamed(r.before, r.after, rule);
    forall k | 0 <= k < |r.grades| && Inside(r.grades[k].path, Join(rule))
      ensures LastQuality(r.grades[k].path, Join(owner))
    {
      var n, p, keys := PlaceOfGrade(r, k);
      InsideMeansBelow(r.before, r.after, keys, rule);
      PlainEntryIsLast(r, owner, name, old', new', keys);
    }
  }

  lemma PlainEntryIsLast(r: Run, owner: seq<string>, name: string, old': Dict, new': Dict, keys: seq<string>)
    requires Plain(r.before) && Plain(r.after) && owner != [] && NotQuality(name)
    requires At(r.before, RuleKeys(owner, name)) == Some(Obj(old')) && AllNames(Obj(old'), NotQuality)
    requires At(r.after, RuleKeys(owner, name)) == Some(Obj(new')) && AllNames(Obj(new'), NotQuality)
    requires RuleKeys(owner, name) < keys && Shows(r.before, r.after, keys)
    ensures LastQuality(Join(keys), Join(owner))
  {
    var rule := RuleKeys(owner, name);
    var more, tree := keys[|rule|..], if ShowsIn(r.before, keys) then r.before else r.after;
    assert keys == rule + more;
    ShownNames(tree, keys, IsPlain);
    ShownBelow(tree, rule, more);
    ShownNames(At(tree, rule).value, more, NotQuality);
    forall c | |owner| < c < |keys|
      ensures keys[c] != "quality"
    {
      assert c == |owner| + 1 ==> keys[c] == name;
      assert c > |owner| + 1 ==> keys[c] == more[c - |rule|] && NotQuality(more[c - |rule|]);
    }
    PlainLastQuality(keys, owner);
  }
}
