/**
 * Two ways in which a quality rule becomes a guarantee and no entry says so, each with a pair of contracts.
 */
module SilentFlips {
  import opened Wrappers
  import opened JsonTrees
  import opened Breaking
  import opened NumberProbes
  import opened Thresholds
  import opened Paths
  import opened Lookups
  import opened QualityRules
  import opened Guarantees
  import opened Detector
  import opened DetectorTheorems
  import opened Diffs
  import opened Places
  import opened Runs
  import opened PlainNames
  import opened MistakenEntries

  /** `leaf` at `keys`, in dicts that hold nothing else. */
  function Nest(keys: seq<string>, leaf: Json): Json {
    if keys == [] then leaf else Obj(map[keys[0] := Nest(keys[1..], leaf)])
  }

  lemma {:induction false} NestHolds(keys: seq<string>, leaf: Json, p: string -> bool)
    requires (forall c :: 0 <= c < |keys| ==> p(keys[c])) && AllNames(leaf, p) && leaf != Null && NoNulls(leaf)
    ensures At(Nest(keys, leaf), keys) == Some(leaf) && AllNames(Nest(keys, leaf), p)
    ensures NoNulls(Nest(keys, leaf)) && Nest(keys, leaf) != Null
  {
    if keys != [] {
      NestHolds(keys[1..], leaf, p);
    }
  }

  // ---------------------------------------------------------------- A list that was only reordered

  const OWNER: seq<string> := ["schema", "orders", "properties", "status"]

  /** invalidValues with two valid values, and no threshold. */
  function Unchecked(): Dict {
    map["metric" := Text("invalidValues"), "arguments" := ValidValues([Text("a"), Text("b")])]
  }

  /** The same with the values in the other order, and a threshold. */
  function Checked(): Dict {
    map["metric" := Text("invalidValues"), "arguments" := ValidValues([Text("b"), Text("a")]), "mustBe" := Num(0.0)]
  }

  function ValidValues(values: seq<Json>): Json { Obj(map["validValues" := Arr(values)]) }

  function Contract(rule: Dict): Json { Nest(RuleKeys(OWNER, "q"), Obj(rule)) }

  lemma OneIsAGuarantee(host: Host)
    requires ValidatesAnything(host)
    ensures GuaranteeStatus(host, Unchecked(), true) == Some(false) && IsGuarantee(host, Checked(), true)
  {
    NoThreshold(host);
    assert Get(Unchecked(), "severity") == Null && Get(Unchecked(), "type") == Null;
    CheckedIsAGuarantee(host);
  }

  lemma CheckedIsAGuarantee(host: Host)
    requires ValidatesAnything(host)
    ensures IsGuarantee(host, Checked(), true)
  {
    var quality := Restrict(Checked(), METRIC_FIELDS);
    SomeThreshold(host);
    NoSeverityFails(host, Checked(), true);
    assert METRIC_FIELDS[0] == "metric" && METRIC_FIELDS[2] == "arguments";
    assert Get(quality, "metric") == Text("invalidValues") && Get(quality, "unit") == Null;
    assert Get(Fields(Get(quality, "arguments")), "validValues") != Null;
  }

  lemma NoThreshold(host: Host)
    requires ValidatesAnything(host)
    ensures ThresholdOf(host, Unchecked()).None?
  {
    Arguments.ArgumentsAreNoThreshold();
    assert ThresholdQuality(host, Unchecked()) == map[];
  }

  lemma SomeThreshold(host: Host)
    requires ValidatesAnything(host)
    ensures ThresholdOf(host, Checked()).Some?
  {
    assert THRESHOLDS[0] == "mustBe" && "mustBe" in THRESHOLDS;
    assert Get(ThresholdQuality(host, Checked()), "mustBe") == Num(0.0);
  }

  lemma OrderMatters()
    ensures ValidValues([Text("a"), Text("b")]) != ValidValues([Text("b"), Text("a")])
  {
    var ab, ba := [Text("a"), Text("b")], [Text("b"), Text("a")];
    assert ab[0].text[0] == 'a' && ba[0].text[0] == 'b';
    var one, two := ValidValues(ab), ValidValues(ba);
    assert one.fields["validValues"] == Arr(ab) && two.fields["validValues"] == Arr(ba);
  }

  lemma ArgumentsCarry()
    ensures Carrier(Unchecked(), Checked(), DECISIVE + THRESHOLDS) == Some("arguments")
  {
    var keys := DECISIVE + THRESHOLDS;
    assert forall n :: 0 <= n < 8 ==> keys[n] == DECISIVE[n];
    OrderMatters();
    FirstChangeCarries(Unchecked(), Checked(), keys, 6);
  }

  /** To the diff, the reordered list is the same. */
  lemma ReorderedListIsTheSame()
    ensures !Differs(Value(Unchecked(), "arguments"), Value(Checked(), "arguments"))
  {
    SwappedItemsAreTheSame(Text("a"), Text("b"));
    var f, g := ValidValues([Text("a"), Text("b")]).fields, ValidValues([Text("b"), Text("a")]).fields;
    forall k
      ensures !DiffersAt(f, g, k)
    {
    }
  }

  lemma RuleNames(rule: Dict, p: string -> bool)
    requires rule == Unchecked() || rule == Checked()
    requires p("metric") && p("arguments") && p("validValues") && p("mustBe") && p("a") && p("b")
    ensures AllNames(Obj(rule), p) && NoNulls(Obj(rule))
  {
    ListNames(rule["arguments"].fields["validValues"].items, p);
    forall k | k in rule
      ensures p(k) && AllNames(rule[k], p) && rule[k] != Null && NoNulls(rule[k])
    {
    }
  }

  lemma ListNames(values: seq<Json>, p: string -> bool)
    requires p("validValues") && forall n :: 0 <= n < |values| ==> values[n].Text? && p(values[n].text)
    ensures AllNames(ValidValues(values), p) && NoNulls(ValidValues(values))
  {
    assert forall n :: 0 <= n < |values| ==> AllNames(values[n], p) && TextIs(values[n], p);
    assert AllNames(Arr(values), p) && NoNulls(Arr(values));
  }

  lemma ContractIsPlain(rule: Dict, tree: Json)
    requires rule == Unchecked() || rule == Checked()
    requires tree == Contract(rule)
    ensures Plain(tree) && HoldsRule(tree, OWNER, "q", rule) && AllNames(Obj(rule), NotQuality) && NoNullValues(rule)
  {
    RuleNames(rule, IsPlain);
    RuleNames(rule, NotQuality);
    KeysArePlain();
    NestHolds(RuleKeys(OWNER, "q"), Obj(rule), IsPlain);
    PlainHoldsRule(tree, OWNER, "q", rule);
  }

  lemma KeysArePlain()
    ensures forall c :: 0 <= c < |RuleKeys(OWNER, "q")| ==> IsPlain(RuleKeys(OWNER, "q")[c])
  {
    var keys := RuleKeys(OWNER, "q");
    assert keys[0] == "schema" && keys[1] == "orders" && keys[2] == "properties" && keys[3] == "status";
    assert keys[4] == "quality" && keys[5] == "q";
  }

  /** In plain contracts, a flip whose carrier the diff does not see is not reported. */
  lemma UnseenPlainFlipIsSilent(
      r: Run, owner: seq<string>, name: string, old': Dict, new': Dict, key: string, d: Direction)
    requires IsRun(r) && Plain(r.before) && Plain(r.after) && Flips(r, owner, name, old', new', key) && NotQuality(name)
    requires AllNames(Obj(old'), NotQuality) && AllNames(Obj(new'), NotQuality)
    requires !Differs(Value(old', key), Value(new', key))
    requires d == FlipDirection(r.host, new', AtProperty(owner))
    ensures !FlipIsReported(r, owner, name, d)
  {
    PlainIsUnmistaken(r, owner, name, old', new', key);
    PlainRuleIsLast(r, owner, name, old', new');
    GuaranteeFlipIsReported(r, owner, name, old', new', key);
  }

  /**
   * In every run of these two contracts the rule becomes a guarantee, `arguments` carries the change, and
   * no entry reports it: the diff does not see that the list was reordered, and the new threshold is untested.
   */
  lemma ReorderedListHidesAGuarantee(r: Run)
    requires IsRun(r) && r.before == Contract(Unchecked()) && r.after == Contract(Checked())
    requires ValidatesAnything(r.host)
    ensures Flips(r, OWNER, "q", Unchecked(), Checked(), "arguments")
    ensures !FlipIsReported(r, OWNER, "q", Tightens)
  {
    var old', new' := Unchecked(), Checked();
    ContractIsPlain(old', r.before);
    ContractIsPlain(new', r.after);
    OwnerIsAProperty();
    OneIsAGuarantee(r.host);
    ArgumentsCarry();
    ReorderedListIsTheSame();
    UnseenPlainFlipIsSilent(r, OWNER, "q", old', new', "arguments", Tightens);
  }

  lemma OwnerIsAProperty()
    ensures AtProperty(OWNER)
  {
    JoinThree("schema", "orders", "properties");
    var head: seq<string> := ["schema", "orders"];
    assert OWNER == head + ["properties", "status"];
    JoinAppend(head, ["properties", "status"]);
    JoinTwo("properties", "status");
    var path := Join(OWNER);
    assert path == Join(head) + ".properties." + "status" by {
      assert Join(head) + "." + ("properties" + "." + "status") == Join(head) + ("." + "properties" + ".") + "status";
    }
    assert IsAt(path, ".properties.", |Join(head)|);
  }

  // ---------------------------------------------------------------- A schema beside another

  /**
   * When a schema `a` comes or goes, a rule of schema `a.b` that becomes or stops being a guarantee is not
   * reported: its entries lie inside the path of `a`.
   */
  lemma DottedSchemaHidesAGuarantee(
      r: Run, a: string, b: string, name: string, old': Dict, new': Dict, key: string, d: Direction)
    requires IsRun(r) && NoDot(a) && Flips(r, ["schema", a + "." + b], name, old', new', key)
    requires At(r.before, ["schema", a]).Some? != At(r.after, ["schema", a]).Some?
    ensures !FlipIsReported(r, ["schema", a + "." + b], name, d)
  {
    var owner := ["schema", a + "." + b];
    var rule := Join(RuleKeys(owner, name));
    SchemaIsAround(a, b, name);
    DictsAllTheWay(r.before, r.after, RuleKeys(owner, name), ["schema"]);
    forall k | 0 <= k < |r.grades| && AtOrInside(r.grades[k].path, rule)
      ensures Final(r.grades, r.grades[k]).direction == None
    {
      DottedSiblingIsSilenced(r, a, k);
    }
  }

  lemma SchemaIsAround(a: string, b: string, name: string)
    ensures Inside(Join(RuleKeys(["schema", a + "." + b], name)), "schema." + a)
  {
    var owner := ["schema", a + "." + b];
    RulePath(owner, name);
    JoinTwo("schema", a + "." + b);
    var path := Join(RuleKeys(owner, name));
    assert path == "schema" + "." + (a + "." + b) + QUALITY + name;
    assert path == ("schema." + a + ".") + (b + QUALITY + name);
  }
}
