/**
Rules run one after the other, and each sees what the earlier ones produced:
the output is fed back into the feature `rule.matched`. Go maps are references,
so they are objects here; the first output is stored as it is, not copied
(pkg/nfd-master/nfd-master.go, pkg/apis/nfd/v1alpha1/feature.go, source/custom/custom.go).
*/
module Feedback {
  import opened Basics
  import opened Names
  import opened Expressions
  import opened Rules
  import opened DefaultNs

  const MATCHED := "rule.matched"
  const RESOURCE_NS := FEATURE_NS

  /** A Go map, shared by whoever holds a reference to it. */
  class StringMap {
    var m: map<string, string>

    constructor (m0: map<string, string>)
      ensures m == m0
    {
      m := m0;
    }

    /** maps.Copy(this, src) */
    method CopyFrom(src: map<string, string>)
      modifies this
      ensures m == old(m) + src
    {
      m := m + src;
    }
  }

  /** The content of a possibly nil map. */
  function Content(p: StringMap?): map<string, string>
    reads p
  {
    if p == null then map[] else p.m
  }

  /** The features of a node; attribute sets can be updated in place, and their maps can be nil. */
  class Features {
    const flags: map<string, set<string>>
    const instances: map<string, seq<Attributes>>
    var attributes: map<string, StringMap?>

    /** The attribute sets, each with what its map holds. */
    function Value(): FeatureData
      reads this, attributes.Values
    {
      FeatureData(flags, map k | k in attributes :: Content(attributes[k]), instances)
    }

    predicate IsNil(key: string)
      reads this
    {
      key in attributes && attributes[key] == null
    }

    /** The map of a feature, if there is one. */
    ghost function MapOf(key: string): set<object>
      reads this
    {
      if key in attributes && attributes[key] != null then {attributes[key]} else {}
    }

    /** No other feature shares its map with this one. */
    ghost predicate Separate(key: string)
      reads this
    {
      MapOf(key) != {} ==> forall k | k in attributes && k != key :: attributes[k] != attributes[key]
    }

    /** InsertAttributeFeatures, of values that may be nil; not ok is the panic of writing to a nil map. */
    method InsertAttributeFeatures(key: string, values: StringMap?) returns (ok: bool)
      modifies this, MapOf(key)
      ensures ok <==> !(old(IsNil(key)) && old(Content(values)) != map[])
      ensures !ok ==> attributes == old(attributes)
      ensures ok ==> key in attributes && attributes == old(attributes)[key := attributes[key]]
      ensures key in old(attributes) ==> attributes == old(attributes)
      ensures key !in old(attributes) ==>
        attributes[key] != null && (attributes[key] == values || (values == null && fresh(attributes[key])))
      ensures ok && old(Separate(key)) ==> Value() == Inserted(old(Value()), key, old(Content(values)))
      ensures old(Separate(key)) && old(values == null || values !in attributes.Values) ==> Separate(key)
    {
      if key !in attributes {
        var elements := values;
        if elements == null {
          elements := new StringMap(map[]);
        }
        StoreNew(key, elements);
        return true;
      }
      ok := CopyInto(key, Content(values));
    }

    method StoreNew(key: string, elements: StringMap)
      requires key !in attributes
      modifies this
      ensures attributes == old(attributes)[key := elements]
      ensures Value() == Inserted(old(Value()), key, elements.m)
      ensures elements !in old(attributes.Values) ==> Separate(key)
    {
      assert forall k | k in attributes :: attributes[k] in attributes.Values;
      attributes := attributes[key := elements];
      assert map[] + elements.m == elements.m;
      assert Value().attributes == Inserted(old(Value()), key, elements.m).attributes;
    }

    /** maps.Copy into the map of a feature: copying nothing into nil is fine. */
    method CopyInto(key: string, values: Pairs) returns (ok: bool)
      requires key in attributes
      modifies MapOf(key)
      ensures ok <==> !(IsNil(key) && values != map[])
      ensures ok && Separate(key) ==> Value() == Inserted(old(Value()), key, values)
    {
      if attributes[key] == null {
        ok := values == map[];
        if ok {
          assert Value().attributes[key] + values == Value().attributes[key];
          assert Value().attributes == Inserted(Value(), key, values).attributes;
        }
        return;
      }
      attributes[key].CopyFrom(values);
      assert Separate(key) ==> Value().attributes == Inserted(old(Value()), key, values).attributes;
      return true;
    }
  }

  /** The values are laid over what the feature had. */
  function Inserted(f: FeatureData, key: string, values: Pairs): FeatureData {
    f.(attributes := f.attributes[key := (if key in f.attributes then f.attributes[key] else map[]) + values])
  }

  // ----- What the run should come to -----

  function OutputOfRule(o: RuleOutcome): Output {
    if o.RuleMatches? then o.output else NO_OUTPUT
  }

  /** A rule that ran without error feeds back its labels, then its variables. */
  function FedOne(before: Option<Pairs>, o: RuleOutcome): Option<Pairs> {
    if o.RuleFails? then before
    else Some((if before.Some? then before.value else map[]) + OutputOfRule(o).labels + OutputOfRule(o).vars)
  }

  /** What earlier rules have fed back, in order. */
  function Fed(start: Option<Pairs>, outs: seq<RuleOutcome>): Option<Pairs> {
    if outs == [] then start else FedOne(Fed(start, outs[..|outs| - 1]), outs[|outs| - 1])
  }

  function Start(f: FeatureData): Option<Pairs> {
    if MATCHED in f.attributes then Some(f.attributes[MATCHED]) else None
  }

  /** The original features with the given content fed back. */
  function With(f: FeatureData, fed: Option<Pairs>): FeatureData {
    f.(attributes := if fed.Some? then f.attributes[MATCHED := fed.value] else f.attributes - {MATCHED})
  }

  /** What one rule contributes to the result: its output with the default namespace added, or nothing. */
  ghost predicate Contributes(auto: bool, o: RuleOutcome, c: Output) {
    var out := OutputOfRule(o);
    if o.RuleFails? then c == NO_OUTPUT
    else
      && c.taints == out.taints && c.vars == map[]
      && Named(auto, out.labels, FEATURE_NS, c.labels)
      && Named(auto, out.annotations, FEATURE_NS, c.annotations)
      && Named(auto, out.extendedResources, RESOURCE_NS, c.extendedResources)
  }

  function Overlay(a: Output, b: Output): Output {
    Output(a.labels + b.labels, a.vars + b.vars, a.annotations + b.annotations,
           a.extendedResources + b.extendedResources, a.taints + b.taints)
  }

  function Collected(cs: seq<Output>): Output {
    if cs == [] then NO_OUTPUT else Overlay(Collected(cs[..|cs| - 1]), cs[|cs| - 1])
  }

  /** Each rule ran on the features with exactly the earlier outputs fed back. */
  ghost predicate Ran(env: Env, rules: seq<Rule>, f: FeatureData, outs: seq<RuleOutcome>) {
    |outs| == |rules| && forall i | 0 <= i < |rules| ::
      Possible(env, rules[i], With(f, Fed(Start(f), outs[..i])), outs[i])
  }

  ghost predicate Contributions(auto: bool, outs: seq<RuleOutcome>, cs: seq<Output>) {
    |cs| == |outs| && forall i | 0 <= i < |outs| :: Contributes(auto, outs[i], cs[i])
  }

  // ----- The algorithm -----

  /** A rule's output as Go returns it: maps of its own, or nil ones if the rule did not match. */
  datatype HeapOutput = HeapOutput(labels: StringMap?, vars: StringMap?, rest: Output)

  method ExecuteRule(env: Env, r: Rule, f: Features) returns (o: RuleOutcome, h: HeapOutput)
    ensures Possible(env, r, f.Value(), o)
    ensures h.rest == OutputOfRule(o)
    ensures o.RuleMatches? <==> h.labels != null
    ensures h.labels != null <==> h.vars != null
    ensures h.labels != null ==> fresh(h.labels) && h.labels.m == o.output.labels
    ensures h.vars != null ==> fresh(h.vars) && h.vars.m == o.output.vars && h.vars != h.labels
  {
    hide Possible;
    o := Execute(env, r, f.Value());
    h := HeapOutput(null, null, NO_OUTPUT);
    if o.RuleMatches? {
      var labels := new StringMap(o.output.labels);
      var vars := new StringMap(o.output.vars);
      h := HeapOutput(labels, vars, o.output);
    }
  }

  /** The namespaced output of one rule that ran without error. */
  method Contribution(auto: bool, ghost o: RuleOutcome, labels: Pairs, rest: Output) returns (c: Output)
    requires !o.RuleFails? && rest == OutputOfRule(o) && labels == rest.labels
    ensures Contributes(auto, o, c) && c.vars == map[]
  {
    hide Named;
    var l := WithDefaultNs(auto, labels, FEATURE_NS);
    var a := WithDefaultNs(auto, rest.annotations, FEATURE_NS);
    var e := WithDefaultNs(auto, rest.extendedResources, RESOURCE_NS);
    c := Output(l, map[], a, e, rest.taints);
  }

  lemma InsertedTwice(f: FeatureData, fed: Option<Pairs>, a: Pairs, b: Pairs)
    ensures Inserted(Inserted(With(f, fed), MATCHED, a), MATCHED, b)
         == With(f, Some((if fed.Some? then fed.value else map[]) + a + b))
  {
    var start: Pairs := if fed.Some? then fed.value else map[];
    assert start == if MATCHED in With(f, fed).attributes then With(f, fed).attributes[MATCHED] else map[];
    assert Inserted(Inserted(With(f, fed), MATCHED, a), MATCHED, b).attributes[MATCHED] == start + a + b;
    assert Inserted(Inserted(With(f, fed), MATCHED, a), MATCHED, b).attributes
        == f.attributes[MATCHED := start + a + b];
  }

  /** What a rule feeds back is not empty. */
  predicate Feeds(o: RuleOutcome) {
    OutputOfRule(o).labels != map[] || OutputOfRule(o).vars != map[]
  }

  /**
  Feeds one output back: what the map held, then the labels, then the variables.
  Not ok is the panic of writing to a nil map.
  */
  method FeedBack(f: Features, ghost f0: FeatureData, ghost fed: Option<Pairs>, h: HeapOutput) returns (ok: bool)
    requires f.Separate(MATCHED) && f.Value() == With(f0, fed)
    requires h.labels != null ==> h.labels !in f.attributes.Values && h.labels != h.vars
    requires h.vars != null ==> h.vars !in f.attributes.Values
    modifies f, f.MapOf(MATCHED), h.labels
    ensures ok <==> !(old(f.IsNil(MATCHED)) && (old(Content(h.labels)) != map[] || old(Content(h.vars)) != map[]))
    ensures f.Separate(MATCHED) && MATCHED in f.attributes
    ensures ok ==>
      var start: Pairs := if fed.Some? then fed.value else map[];
      f.Value() == With(f0, Some(start + old(Content(h.labels)) + old(Content(h.vars))))
    ensures f.attributes == old(f.attributes)[MATCHED := f.attributes[MATCHED]]
    ensures MATCHED in old(f.attributes) ==> f.attributes == old(f.attributes)
    ensures MATCHED !in old(f.attributes) ==>
      && f.attributes[MATCHED] != null
      && (f.attributes[MATCHED] == h.labels || (h.labels == null && fresh(f.attributes[MATCHED])))
  {
    hide With;
    hide Inserted;
    InsertedTwice(f0, fed, Content(h.labels), Content(h.vars));
    ok := f.InsertAttributeFeatures(MATCHED, h.labels);
    if !ok {
      return;
    }
    assert Content(h.vars) == old(Content(h.vars)) by {
      if h.vars != null && MATCHED in old(f.attributes) {
        assert old(f.attributes[MATCHED]) in old(f.attributes.Values);
      }
    }
    ok := f.InsertAttributeFeatures(MATCHED, h.vars);
  }

  lemma WithStart(f: FeatureData)
    ensures With(f, Start(f)) == f
  {
    assert With(f, Start(f)).attributes == f.attributes;
  }

  lemma FedStep(start: Option<Pairs>, outs: seq<RuleOutcome>, o: RuleOutcome)
    ensures Fed(start, outs + [o]) == FedOne(Fed(start, outs), o)
  {
    assert (outs + [o])[..|outs|] == outs;
  }

  lemma RanStep(env: Env, rules: seq<Rule>, i: nat, f: FeatureData, outs: seq<RuleOutcome>, o: RuleOutcome)
    requires i < |rules| && Ran(env, rules[..i], f, outs)
    requires Possible(env, rules[i], With(f, Fed(Start(f), outs)), o)
    ensures Ran(env, rules[..i + 1], f, outs + [o])
  {
    hide Possible;
    hide With;
    hide Fed;
    var all := outs + [o];
    forall j | 0 <= j < i + 1 ensures Possible(env, rules[j], With(f, Fed(Start(f), all[..j])), all[j]) {
      assert all[..j] == outs[..j];
      assert outs[..i] == outs;
      if j < i {
        assert Possible(env, rules[..i][j], With(f, Fed(Start(f), outs[..j])), outs[j]);
      }
    }
  }

  lemma CollectedStep(cs: seq<Output>, c: Output)
    ensures Collected(cs + [c]) == Overlay(Collected(cs), c)
  {
    assert (cs + [c])[..|cs|] == cs;
  }

  /** The maps in which the result of all rules is collected. */
  datatype Published =
    Published(labels: StringMap, annotations: StringMap, extendedResources: StringMap, taints: seq<string>)
  {
    ghost function Maps(): set<StringMap> {
      {labels, annotations, extendedResources}
    }

    /** The maps are three, and none of them is the map of a feature. */
    ghost predicate Apart(f: Features)
      reads f
    {
      && labels != annotations && labels != extendedResources && annotations != extendedResources
      && labels !in f.attributes.Values && annotations !in f.attributes.Values
      && extendedResources !in f.attributes.Values
    }

    function Value(): Output
      reads labels, annotations, extendedResources
    {
      Output(labels.m, map[], annotations.m, extendedResources.m, taints)
    }

    /** maps.Copy into each, and the taints appended. */
    method Collect(c: Output) returns (p: Published)
      requires labels != annotations && labels != extendedResources && annotations != extendedResources
      requires c.vars == map[]
      modifies Maps()
      ensures p == this.(taints := taints + c.taints)
      ensures p.Value() == Overlay(old(Value()), c)
    {
      hide Overlay;
      OverlayParts(Value(), c);
      labels.CopyFrom(c.labels);
      annotations.CopyFrom(c.annotations);
      extendedResources.CopyFrom(c.extendedResources);
      p := this.(taints := taints + c.taints);
    }
  }

  lemma FedOneOf(fed: Option<Pairs>, o: RuleOutcome)
    ensures o.RuleFails? ==> FedOne(fed, o) == fed && !Feeds(o)
    ensures !o.RuleFails? ==>
      var out, start: Pairs := OutputOfRule(o), if fed.Some? then fed.value else map[];
      FedOne(fed, o) == Some(start + out.labels + out.vars) && (Feeds(o) <==> out.labels != map[] || out.vars != map[])
    ensures o.RuleMatches? ==> OutputOfRule(o) == o.output
    ensures o.RuleNoMatch? ==> OutputOfRule(o) == NO_OUTPUT
  {
  }

  /** The output of a rule is collected before it is fed back. */
  method Publish(auto: bool, ghost o: RuleOutcome, h: HeapOutput, p: Published, ghost f: Features)
    returns (p': Published, ghost c: Output)
    requires !o.RuleFails? && h.rest == OutputOfRule(o) && Content(h.labels) == h.rest.labels && p.Apart(f)
    requires h.labels !in p.Maps() && h.vars !in p.Maps()
    modifies p.Maps()
    ensures Contributes(auto, o, c)
    ensures p' == p.(taints := p'.taints) && p'.Value() == Overlay(old(p.Value()), c)
    ensures f.Value() == old(f.Value())
    ensures Content(h.labels) == old(Content(h.labels)) && Content(h.vars) == old(Content(h.vars))
  {
    hide Contributes;
    hide Overlay;
    var more := Contribution(auto, o, Content(h.labels), h.rest);
    c := more;
    p' := p.Collect(more);
  }

  /** One rule: executed, its output collected, then fed back. */
  method RunOne(env: Env, auto: bool, r: Rule, f: Features, p: Published, ghost f0: FeatureData,
                ghost fed: Option<Pairs>)
    returns (ok: bool, p': Published, ghost o: RuleOutcome, ghost c: Output)
    requires f.Separate(MATCHED) && f.Value() == With(f0, fed) && p.Apart(f)
    modifies f, f.MapOf(MATCHED), p.Maps()
    ensures Possible(env, r, With(f0, fed), o) && Contributes(auto, o, c)
    ensures ok <==> !(old(f.IsNil(MATCHED)) && Feeds(o))
    ensures p' == p.(taints := p'.taints) && p'.Apart(f)
    ensures ok ==> p'.Value() == Overlay(old(p.Value()), c)
    ensures f.Separate(MATCHED) && (ok ==> f.Value() == With(f0, FedOne(fed, o)))
    ensures MATCHED in old(f.attributes) ==> f.attributes == old(f.attributes)
    ensures MATCHED !in old(f.attributes) && MATCHED in f.attributes ==>
      f.attributes[MATCHED] != null && fresh(f.attributes[MATCHED])
  {
    hide With;
    hide Possible;
    hide Contributes;
    hide Overlay;
    hide FedOne;
    hide Feeds;
    hide OutputOfRule;
    var outcome, h := ExecuteRule(env, r, f);
    o := outcome;
    FedOneOf(fed, o);
    if outcome.RuleFails? {
      c := NO_OUTPUT;
      FailureContributes(auto, o);
      OverlayNothing(p.Value());
      return true, p, o, c;
    }
    ok, p', c := PublishAndFeed(auto, o, h, f, p, f0, fed);
  }

  /** The output of a rule that ran without error: collected, then fed back. */
  method PublishAndFeed(auto: bool, ghost o: RuleOutcome, h: HeapOutput, f: Features, p: Published,
                        ghost f0: FeatureData, ghost fed: Option<Pairs>)
    returns (ok: bool, p': Published, ghost c: Output)
    requires f.Separate(MATCHED) && f.Value() == With(f0, fed) && p.Apart(f)
    requires !o.RuleFails? && h.rest == OutputOfRule(o)
    requires Content(h.labels) == h.rest.labels && Content(h.vars) == h.rest.vars
    requires h.labels != null ==> h.labels !in f.attributes.Values && h.labels !in p.Maps() && h.labels != h.vars
    requires h.vars != null ==> h.vars !in f.attributes.Values && h.vars !in p.Maps()
    modifies f, f.MapOf(MATCHED), p.Maps(), h.labels
    ensures Contributes(auto, o, c)
    ensures ok <==> !(old(f.IsNil(MATCHED)) && Feeds(o))
    ensures p' == p.(taints := p'.taints) && p'.Apart(f)
    ensures ok ==> p'.Value() == Overlay(old(p.Value()), c)
    ensures f.Separate(MATCHED) && (ok ==> f.Value() == With(f0, FedOne(fed, o)))
    ensures MATCHED in old(f.attributes) ==> f.attributes == old(f.attributes)
    ensures MATCHED !in old(f.attributes) && MATCHED in f.attributes ==>
      && f.attributes[MATCHED] != null
      && (f.attributes[MATCHED] == h.labels || fresh(f.attributes[MATCHED]))
  {
    hide With;
    hide Contributes;
    hide Overlay;
    hide FedOne;
    hide Feeds;
    hide OutputOfRule;
    FedOneOf(fed, o);
    p', c := Publish(auto, o, h, p, f);
    ok := FeedBack(f, f0, fed, h);
  }

  lemma OverlayNothing(a: Output)
    ensures Overlay(a, NO_OUTPUT) == a
  {
    assert a.labels + map[] == a.labels && a.vars + map[] == a.vars && a.annotations + map[] == a.annotations;
    assert a.extendedResources + map[] == a.extendedResources && a.taints + [] == a.taints;
  }

  lemma OverlayParts(a: Output, b: Output)
    requires a.vars == map[] && b.vars == map[]
    ensures Overlay(a, b) == Output(a.labels + b.labels, map[], a.annotations + b.annotations,
                                    a.extendedResources + b.extendedResources, a.taints + b.taints)
  {
    assert a.vars + b.vars == map[];
  }

  /**
  The rule loop of processNodeFeatureRule (and, without default namespaces, of
  GetLabels): every rule runs on the original features with exactly the labels
  and then the variables of the earlier rules fed back, and what is published is
  made of the outputs proper, in maps of its own, although the fed back feature
  may be the very map that a rule returned as its labels. The loop panics
  exactly if the feature is there with a nil map, at the first rule that has
  something to feed back.
  */
  method RunRules(env: Env, auto: bool, rules: seq<Rule>, f: Features)
    returns (ok: bool, p: Published, ghost outs: seq<RuleOutcome>, ghost cs: seq<Output>)
    requires f.Separate(MATCHED)
    modifies f, f.MapOf(MATCHED)
    ensures |outs| <= |rules| && Ran(env, rules[..|outs|], old(f.Value()), outs) && Contributions(auto, outs, cs)
    ensures ok <==> !(old(f.IsNil(MATCHED)) && exists o | o in outs :: Feeds(o))
    ensures ok ==> |outs| == |rules|
    ensures !ok ==> outs != [] && forall o | o in outs[..|outs| - 1] :: !Feeds(o)
    ensures ok ==> p.Value() == Collected(cs) && f.Value() == With(old(f.Value()), Fed(Start(old(f.Value())), outs))
    ensures p.Apart(f) && fresh(p.Maps())
  {
    hide With;
    hide Start;
    hide Fed;
    hide FedOne;
    hide Possible;
    hide Contributes;
    hide Ran;
    hide Collected;
    hide Overlay;
    hide Feeds;
    ghost var f0 := f.Value();
    ghost var nil := f.IsNil(MATCHED);
    var labels := new StringMap(map[]);
    var annotations := new StringMap(map[]);
    var resources := new StringMap(map[]);
    p := Published(labels, annotations, resources, []);
    outs, cs := [], [];
    WithStart(f0);
    NothingRun(env, rules, f0);
    var i := 0;
    while i < |rules|
      invariant 0 <= i == |outs| <= |rules|
      invariant f.Separate(MATCHED) && p.Apart(f) && fresh(p.Maps())
      invariant MATCHED in old(f.attributes) ==> f.attributes == old(f.attributes)
      invariant MATCHED !in old(f.attributes) && MATCHED in f.attributes ==>
        f.attributes[MATCHED] != null && fresh(f.attributes[MATCHED])
      invariant nil ==> forall o | o in outs :: !Feeds(o)
      invariant Ran(env, rules[..i], f0, outs)
      invariant Contributions(auto, outs, cs) && p.Value() == Collected(cs)
      invariant f.Value() == With(f0, Fed(Start(f0), outs))
    {
      ghost var o, c;
      ghost var outs0 := outs;
      ok, p, o, c := RunOne(env, auto, rules[i], f, p, f0, Fed(Start(f0), outs));
      RanStep(env, rules, i, f0, outs, o);
      FedStep(Start(f0), outs, o);
      CollectedStep(cs, c);
      outs, cs := outs + [o], cs + [c];
      assert outs[..i] == outs0 && outs[i] == o && outs[i] in outs;
      i := i + 1;
      if !ok {
        return;
      }
    }
    assert rules[..|rules|] == rules;
    ok := true;
  }

  lemma NothingRun(env: Env, rules: seq<Rule>, f: FeatureData)
    ensures Ran(env, rules[..0], f, []) && Fed(Start(f), []) == Start(f) && Collected([]) == NO_OUTPUT
  {
  }

  lemma FailureContributes(auto: bool, o: RuleOutcome)
    requires o.RuleFails?
    ensures Contributes(auto, o, NO_OUTPUT)
  {
  }

  // ----- What is published -----

  datatype Kind = OfLabels | OfAnnotations | OfResources

  function Part(o: Output, kind: Kind): Pairs {
    match kind
    case OfLabels => o.labels
    case OfAnnotations => o.annotations
    case OfResources => o.extendedResources
  }

  /** The pair comes from the output of this kind of the rule, under its full name. */
  ghost predicate From(auto: bool, o: RuleOutcome, kind: Kind, key: string, k: string, v: string) {
    && o.RuleMatches? && Used(auto, Part(o.output, kind), "feature.node.kubernetes.io", key)
    && Part(o.output, kind)[key] == v && FullName(auto, "feature.node.kubernetes.io", key) == k
  }

  /** The rule has an output of this kind that is published under the name. */
  ghost predicate Gives(auto: bool, o: RuleOutcome, kind: Kind, k: string) {
    exists key, v :: From(auto, o, kind, key, k, v)
  }

  lemma CollectedPart(cs: seq<Output>, kind: Kind)
    ensures cs == [] ==> Part(Collected(cs), kind) == map[]
    ensures cs != [] ==> Part(Collected(cs), kind) == Part(Collected(cs[..|cs| - 1]), kind) + Part(cs[|cs| - 1], kind)
  {
  }

  lemma ContributedPart(auto: bool, o: RuleOutcome, c: Output, kind: Kind, k: string)
    requires Contributes(auto, o, c)
    ensures k in Part(c, kind) <==> Gives(auto, o, kind, k)
    ensures k in Part(c, kind) ==> exists key :: From(auto, o, kind, key, k, Part(c, kind)[k])
  {
    hide Named;
    hide Kept;
    hide FullName;
    if !o.RuleFails? {
      var m := Part(OutputOfRule(o), kind);
      NamedContents(auto, m, FEATURE_NS, Part(c, kind), k);
      NothingUsed(auto);
      if k in Part(c, kind) {
        var key :| Used(auto, m, FEATURE_NS, key) && FullName(auto, FEATURE_NS, key) == k && m[key] == Part(c, kind)[k];
        assert From(auto, o, kind, key, k, m[key]);
      }
    }
  }

  lemma NothingUsed(auto: bool)
    ensures forall key :: !Used(auto, map[], FEATURE_NS, key)
  {
  }

  /**
  Whatever is published as a label, an annotation or an extended resource was an
  output of that kind of the last rule that gives the name; no variable is.
  */
  lemma {:induction false} PublishedFrom(auto: bool, outs: seq<RuleOutcome>, cs: seq<Output>, kind: Kind, k: string)
    returns (i: nat, key: string)
    requires Contributions(auto, outs, cs) && k in Part(Collected(cs), kind)
    ensures i < |outs| && From(auto, outs[i], kind, key, k, Part(Collected(cs), kind)[k])
    ensures forall j | i < j < |outs| :: !Gives(auto, outs[j], kind, k)
    decreases |cs|
  {
    hide Contributes;
    hide From;
    hide Collected;
    hide Gives;
    CollectedPart(cs, kind);
    var n := |cs| - 1;
    ContributedPart(auto, outs[n], cs[n], kind, k);
    if k in Part(cs[n], kind) {
      i := n;
      key :| From(auto, outs[n], kind, key, k, Part(cs[n], kind)[k]);
    } else {
      i, key := PublishedFrom(auto, outs[..n], cs[..n], kind, k);
      forall j | i < j < |outs| ensures !Gives(auto, outs[j], kind, k) {
        assert j < n ==> outs[j] == outs[..n][j];
      }
    }
  }

  /** Labels in particular. */
  lemma PublishedFromLabels(auto: bool, outs: seq<RuleOutcome>, cs: seq<Output>, k: string)
    returns (i: nat, key: string)
    requires Contributions(auto, outs, cs) && k in Collected(cs).labels
    ensures i < |outs| && outs[i].RuleMatches? && key in outs[i].output.labels
    ensures outs[i].output.labels[key] == Collected(cs).labels[k] && FullName(auto, FEATURE_NS, key) == k
  {
    hide Contributions;
    hide Collected;
    i, key := PublishedFrom(auto, outs, cs, OfLabels, k);
  }

  lemma {:induction false} PartOfLast(cs: seq<Output>, kind: Kind, k: string, i: nat)
    requires i < |cs| && k in Part(cs[i], kind) && forall j | i < j < |cs| :: k !in Part(cs[j], kind)
    ensures k in Part(Collected(cs), kind) && Part(Collected(cs), kind)[k] == Part(cs[i], kind)[k]
    decreases cs
  {
    hide Collected;
    hide Part;
    CollectedPart(cs, kind);
    if i < |cs| - 1 {
      PartOfLast(cs[..|cs| - 1], kind, k, i);
    }
  }

  /** Conversely, every used output of the last rule that gives its name is published with its value. */
  lemma PublishedAll(auto: bool, outs: seq<RuleOutcome>, cs: seq<Output>, kind: Kind, i: nat, key: string)
    requires Contributions(auto, outs, cs) && i < |outs| && outs[i].RuleMatches?
    requires Used(auto, Part(outs[i].output, kind), FEATURE_NS, key)
    requires auto ==> !Ambiguous(Part(outs[i].output, kind), FEATURE_NS)
    requires forall j | i < j < |outs| :: !Gives(auto, outs[j], kind, FullName(auto, FEATURE_NS, key))
    ensures var k := FullName(auto, FEATURE_NS, key);
      && k in Part(Collected(cs), kind)
      && Part(Collected(cs), kind)[k] == Part(outs[i].output, kind)[key]
  {
    hide Contributes;
    hide Collected;
    hide Gives;
    hide FullName;
    hide Used;
    var k := FullName(auto, FEATURE_NS, key);
    ContributedValue(auto, outs[i], cs[i], kind, key);
    forall j | i < j < |cs| ensures k !in Part(cs[j], kind) {
      ContributedPart(auto, outs[j], cs[j], kind, k);
    }
    PartOfLast(cs, kind, k, i);
  }

  lemma ContributedValue(auto: bool, o: RuleOutcome, c: Output, kind: Kind, key: string)
    requires Contributes(auto, o, c) && o.RuleMatches? && Used(auto, Part(o.output, kind), FEATURE_NS, key)
    requires auto ==> !Ambiguous(Part(o.output, kind), FEATURE_NS)
    ensures var k := FullName(auto, FEATURE_NS, key);
      k in Part(c, kind) && Part(c, kind)[k] == Part(o.output, kind)[key]
  {
    hide Named;
    hide Used;
    hide FullName;
    hide Ambiguous;
    IsDefaultNs();
    NamedValue(auto, Part(o.output, kind), FEATURE_NS, Part(c, kind), key);
  }

  lemma IsDefaultNs()
    ensures IsNs(FEATURE_NS)
  {
    assert forall i | 0 <= i < |FEATURE_NS| :: FEATURE_NS[i] != '/';
  }

  /** The taints of all matching rules, one after the other. */
  function TaintsOf(outs: seq<RuleOutcome>): seq<string> {
    if outs == [] then []
    else
      var o := outs[|outs| - 1];
      TaintsOf(outs[..|outs| - 1]) + if o.RuleMatches? then o.output.taints else []
  }

  lemma {:induction false} PublishedTaints(auto: bool, outs: seq<RuleOutcome>, cs: seq<Output>)
    requires Contributions(auto, outs, cs)
    ensures Collected(cs).taints == TaintsOf(outs)
    decreases outs
  {
    hide Named;
    if outs != [] {
      var n := |outs| - 1;
      PublishedTaints(auto, outs[..n], cs[..n]);
      assert Contributes(auto, outs[n], cs[n]);
    }
  }

  // ----- What later rules see -----

  ghost predicate Feeding(o: RuleOutcome, k: string) {
    o.RuleMatches? && (k in o.output.labels || k in o.output.vars)
  }

  /** A later rule sees the variable of the last rule that has the name, or else its label. */
  lemma {:induction false} FedValue(start: Option<Pairs>, outs: seq<RuleOutcome>, k: string, i: nat)
    requires i < |outs| && Feeding(outs[i], k) && forall j | i < j < |outs| :: !Feeding(outs[j], k)
    ensures var fed, o := Fed(start, outs), outs[i].output;
      && fed.Some? && k in fed.value
      && fed.value[k] == if k in o.vars then o.vars[k] else o.labels[k]
    decreases outs
  {
    var n := |outs| - 1;
    if i < n {
      FedValue(start, outs[..n], k, i);
      assert !Feeding(outs[n], k);
    }
  }

  /** What no rule feeds back is as it was at the start. */
  lemma {:induction false} FedOtherwise(start: Option<Pairs>, outs: seq<RuleOutcome>, k: string)
    requires forall j | 0 <= j < |outs| :: !Feeding(outs[j], k)
    ensures var fed := Fed(start, outs);
      (fed.Some? && k in fed.value <==> start.Some? && k in start.value)
      && (fed.Some? && k in fed.value ==> fed.value[k] == start.value[k])
    decreases outs
  {
    if outs != [] {
      var n := |outs| - 1;
      FedOtherwise(start, outs[..n], k);
      assert !Feeding(outs[n], k);
    }
  }

  /** It sees that as the attributes of `rule.matched`, and everything else as it was. */
  lemma FedWhere(f: FeatureData, fed: Pairs)
    ensures var g := With(f, Some(fed));
      && g.flags == f.flags && g.instances == f.instances && g.attributes.Keys == f.attributes.Keys + {"rule.matched"}
      && g.attributes["rule.matched"] == fed
      && (forall n | n in f.attributes && n != "rule.matched" :: g.attributes[n] == f.attributes[n])
    ensures "rule.matched" in f.attributes ==> Start(f) == Some(f.attributes["rule.matched"])
    ensures "rule.matched" !in f.attributes ==> Start(f) == None
  {
  }
}
