/**
Node feature rules: terms over flags, attributes and instances, and the
execution of a rule (pkg/apis/nfd/v1alpha1/nodefeaturerule/rule.go).
*/
module Rules {
  import opened Basics
  import opened Names
  import opened Expressions
  import opened Templates

  /** The raw features of a node, as rules see them. */
  datatype FeatureData = FeatureData(
    flags: map<string, set<string>>, attributes: map<string, Attributes>, instances: map<string, seq<Attributes>>)

  datatype FeatureSet = Flags(keys: set<string>) | Values(values: Attributes) | Instances(items: seq<Attributes>)

  function Lookup(f: FeatureData, name: string): Option<FeatureSet> {
    if name in f.flags then Some(Flags(f.flags[name]))
    else if name in f.attributes then Some(Values(f.attributes[name]))
    else if name in f.instances then Some(Instances(f.instances[name]))
    else None
  }

  datatype Term = Term(feature: string, expressions: Option<ExpressionSet>, name: Option<Expression>)

  type Domain = map<string, seq<MatchedElement>>
  type MatchedFeatures = map<string, Domain>

  /** Library functions: expression helpers, strings.ToLower, and parsing and executing a template. */
  datatype Env = Env(lib: Lib, lower: string -> string, execute: (string, MatchedFeatures) -> Option<string>)

  // ----- The meaning of a term -----

  ghost predicate SetHolds(lib: Lib, m: ExpressionSet, s: FeatureSet) {
    match s
    case Flags(keys) => AllTrue(m.Keys, KeyVerdict(m, keys))
    case Values(values) => AllTrue(m.Keys, ValueVerdict(lib, m, values))
    case Instances(items) => exists i | i in items :: AllOf(lib, m)(i)
  }

  ghost predicate NameHolds(lib: Lib, e: Expression, s: FeatureSet) {
    match s
    case Flags(keys) => SomeTrue(keys, NameVerdict(lib, e))
    case Values(values) => SomeTrue(values.Keys, NameVerdict(lib, e))
    case Instances(items) => exists i | i in items :: SomeNameOf(lib, e)(i)
  }

  /** All expressions hold, of one instance if there are several, and some name matches. */
  ghost predicate TermHolds(lib: Lib, t: Term, s: FeatureSet) {
    && (t.expressions.Some? ==> SetHolds(lib, t.expressions.value, s))
    && (t.name.Some? ==> NameHolds(lib, t.name.value, s))
  }

  /** In that map order the expressions evaluate on the set without error. */
  ghost predicate SetPasses(mo: MapOrder, lib: Lib, m: ExpressionSet, s: FeatureSet) {
    match s
    case Flags(keys) => Passes(mo, m.Keys, KeyVerdict(m, keys))
    case Values(values) => Passes(mo, m.Keys, ValueVerdict(lib, m, values))
    case Instances(items) => InstancesPass(mo, lib, m, items)
  }

  ghost predicate NameClean(lib: Lib, e: Expression, s: FeatureSet) {
    match s
    case Flags(keys) => NoneFails(keys, NameVerdict(lib, e))
    case Values(values) => NoneFails(values.Keys, NameVerdict(lib, e))
    case Instances(items) => forall i | i in items :: NoneFails(i.Keys, NameVerdict(lib, e))
  }

  /** The term is evaluated without error; names are looked at only if the expressions hold. */
  ghost predicate TermPasses(mo: MapOrder, lib: Lib, t: Term, s: FeatureSet) {
    && (t.expressions.Some? ==> SetPasses(mo, lib, t.expressions.value, s))
    && (t.name.Some? && (t.expressions.Some? ==> SetHolds(lib, t.expressions.value, s)) ==>
          NameClean(lib, t.name.value, s))
  }

  ghost function SetElems(lib: Lib, m: ExpressionSet, s: FeatureSet): seq<MatchedElement> {
    match s
    case Flags(keys) => Elements(SortedNames(m.Keys), NameElem())
    case Values(values) => Elements(SortedNames(m.Keys), ValueElem(values))
    case Instances(items) => Filter(items, AllOf(lib, m))
  }

  ghost function NameElems(lib: Lib, e: Expression, s: FeatureSet): seq<MatchedElement> {
    match s
    case Flags(keys) => Elements(SortedNames(TrueNames(keys, NameVerdict(lib, e))), NameElem())
    case Values(values) => Elements(SortedNames(TrueNames(values.Keys, NameVerdict(lib, e))), ValueElem(values))
    case Instances(items) => Filter(items, SomeNameOf(lib, e))
  }

  /** What a matching term hands to the templates, in sorted order. */
  ghost function TermElems(lib: Lib, t: Term, s: FeatureSet): seq<MatchedElement> {
    (if t.expressions.Some? then SetElems(lib, t.expressions.value, s) else [])
    + (if t.name.Some? then NameElems(lib, t.name.value, s) else [])
  }

  /** Accepted expressions that compare no numbers, and on flags ask only for existence, never fail. */
  lemma AcceptedTermPasses(lib: Lib, t: Term, s: FeatureSet)
    requires t.expressions.Some? ==> forall n | n in t.expressions.value :: Unfailing(lib, t.expressions.value[n])
    requires t.name.Some? ==> Unfailing(lib, t.name.value)
    requires t.expressions.Some? && s.Flags? ==>
      forall n | n in t.expressions.value :: OfExistence(t.expressions.value[n].op)
    ensures TermPasses(ErrorsFirst, lib, t, s)
  {
    hide Eval;
    hide Validate;
    forall e, input | Unfailing(lib, e) ensures Eval(lib, e, input).Some? {
      AcceptedErrors(lib, e, input);
    }
  }

  predicate Unfailing(lib: Lib, e: Expression) {
    Validate(lib, e) && !Numeric(e.op)
  }

  predicate OfExistence(op: Op) {
    op.Any? || op.Exists? || op.DoesNotExist?
  }

  method EvalSet(lib: Lib, m: ExpressionSet, s: FeatureSet) returns (r: Outcome)
    ensures r.Matches? ==> SetHolds(lib, m, s) && r.elems == SetElems(lib, m, s)
    ensures r.NoMatch? ==> !SetHolds(lib, m, s)
    ensures !r.Fails? ==> SetPasses(MismatchesFirst, lib, m, s)
    ensures r.Fails? ==> !SetPasses(ErrorsFirst, lib, m, s)
  {
    hide Filter;
    match s
    case Flags(keys) => r := MatchGetKeys(m, keys);
    case Values(values) => r := MatchGetValues(lib, m, values);
    case Instances(items) =>
      var elems := MatchGetInstances(lib, m, items);
      FilterEmpty(items, AllOf(lib, m));
      r := FromElems(elems);
  }

  function FromElems(elems: Option<seq<MatchedElement>>): Outcome {
    if elems.None? then Fails else if elems.value == [] then NoMatch else Matches(elems.value)
  }

  /** What a name expression comes to, in every map order. */
  ghost function NameOutcome(lib: Lib, e: Expression, s: FeatureSet): Outcome {
    if !NameClean(lib, e, s) then Fails
    else if NameHolds(lib, e, s) then Matches(NameElems(lib, e, s))
    else NoMatch
  }

  method EvalName(lib: Lib, e: Expression, s: FeatureSet) returns (r: Outcome)
    ensures r == NameOutcome(lib, e, s)
  {
    hide Filter;
    match s
    case Flags(keys) => r := MatchKeyNames(lib, e, keys);
    case Values(values) => r := MatchValueNames(lib, e, values);
    case Instances(items) =>
      var elems := MatchInstanceAttributeNames(lib, e, items);
      FilterEmpty(items, SomeNameOf(lib, e));
      r := FromElems(elems);
  }

  /** One pass of the loop in evaluateFeatureMatcher. */
  method EvalTerm(lib: Lib, t: Term, s: FeatureSet) returns (r: Outcome)
    ensures r.Matches? ==> TermHolds(lib, t, s) && r.elems == TermElems(lib, t, s)
    ensures r.NoMatch? ==> !TermHolds(lib, t, s)
    ensures !r.Fails? ==> TermPasses(MismatchesFirst, lib, t, s)
    ensures r.Fails? ==> !TermPasses(ErrorsFirst, lib, t, s)
  {
    hide SetHolds;
    hide NameHolds;
    hide SetPasses;
    hide NameClean;
    hide SetElems;
    hide NameElems;
    r := Matches([]);
    if t.expressions.Some? {
      r := EvalSet(lib, t.expressions.value, s);
    }
    if r.Matches? && t.name.Some? {
      var byName := EvalName(lib, t.name.value, s);
      r := if byName.Matches? then Matches(r.elems + byName.elems) else byName;
    }
  }

  // ----- Matchers: all terms -----

  type Matcher = seq<Term>

  ghost predicate Holds(env: Env, t: Term, f: FeatureData) {
    var s := Lookup(f, env.lower(t.feature));
    s.Some? && TermHolds(env.lib, t, s.value)
  }

  /** The feature is there and the term evaluates without error. */
  ghost predicate Evaluates(mo: MapOrder, env: Env, t: Term, f: FeatureData) {
    var s := Lookup(f, env.lower(t.feature));
    s.Some? && TermPasses(mo, env.lib, t, s.value)
  }

  ghost predicate AllHold(env: Env, m: Matcher, f: FeatureData) {
    forall t | t in m :: Holds(env, t, f)
  }

  /** Every term that is reached, because the ones before it hold, evaluates without error. */
  ghost predicate MatcherPasses(mo: MapOrder, env: Env, m: Matcher, f: FeatureData) {
    forall i | 0 <= i < |m| && AllHold(env, m[..i], f) :: Evaluates(mo, env, m[i], f)
  }

  /** Domain and name of a feature, which keep their case when there is a dot. */
  function Place(env: Env, t: Term): (string, string) {
    var cut := Cut(t.feature, '.');
    if cut.Some? then cut.value else (env.lower(t.feature), "")
  }

  function AddMatches(ms: MatchedFeatures, place: (string, string), elems: seq<MatchedElement>): MatchedFeatures {
    var d: Domain := if place.0 in ms then ms[place.0] else map[];
    ms[place.0 := d[place.1 := (if place.1 in d then d[place.1] else []) + elems]]
  }

  ghost function ElemsOf(env: Env, t: Term, f: FeatureData): seq<MatchedElement> {
    var s := Lookup(f, env.lower(t.feature));
    if s.Some? then TermElems(env.lib, t, s.value) else []
  }

  ghost function MatchesOf(env: Env, m: Matcher, f: FeatureData): MatchedFeatures {
    if m == [] then map[]
    else
      var t := m[|m| - 1];
      AddMatches(MatchesOf(env, m[..|m| - 1], f), Place(env, t), ElemsOf(env, t, f))
  }

  datatype MatcherOutcome = MatcherFails | MatcherNoMatch | MatcherMatches(found: MatchedFeatures)

  /** evaluateFeatureMatcher */
  method EvalMatcher(env: Env, m: Matcher, f: FeatureData) returns (r: MatcherOutcome)
    ensures r.MatcherMatches? ==> AllHold(env, m, f) && r.found == MatchesOf(env, m, f)
    ensures r.MatcherNoMatch? ==> !AllHold(env, m, f)
    ensures !r.MatcherFails? ==> MatcherPasses(MismatchesFirst, env, m, f)
    ensures r.MatcherFails? ==> !MatcherPasses(ErrorsFirst, env, m, f)
  {
    hide Holds;
    hide Evaluates;
    hide ElemsOf;
    hide AddMatches;
    hide MatchesOf;
    var found: MatchedFeatures := map[];
    var i := 0;
    MatchesNone(env, m, f);
    while i < |m|
      invariant 0 <= i <= |m| && AllHold(env, m[..i], f)
      invariant forall j | 0 <= j < i :: Evaluates(MismatchesFirst, env, m[j], f)
      invariant found == MatchesOf(env, m[..i], f)
    {
      var o := EvalTermOf(env, m[i], f);
      if o.Fails? {
        assert AllHold(env, m[..i], f) && !Evaluates(ErrorsFirst, env, m[i], f);
        return MatcherFails;
      }
      if o.NoMatch? {
        NotReached(env, m, f, i);
        return MatcherNoMatch;
      }
      MatchesStep(env, m, i, f);
      found := AddMatches(found, Place(env, m[i]), o.elems);
      i := i + 1;
    }
    assert m[..|m|] == m;
    return MatcherMatches(found);
  }

  /** One term with the feature that it names; a feature that is not there is an error. */
  method EvalTermOf(env: Env, t: Term, f: FeatureData) returns (r: Outcome)
    ensures r.Matches? ==> Holds(env, t, f) && r.elems == ElemsOf(env, t, f)
    ensures r.NoMatch? ==> !Holds(env, t, f)
    ensures !r.Fails? ==> Evaluates(MismatchesFirst, env, t, f)
    ensures r.Fails? ==> !Evaluates(ErrorsFirst, env, t, f)
  {
    hide TermHolds;
    hide TermPasses;
    hide TermElems;
    var s := Lookup(f, env.lower(t.feature));
    if s.None? {
      return Fails;
    }
    r := EvalTerm(env.lib, t, s.value);
  }

  lemma MatchesNone(env: Env, m: Matcher, f: FeatureData)
    ensures MatchesOf(env, m[..0], f) == map[] && AllHold(env, m[..0], f)
  {
  }

  lemma MatchesStep(env: Env, m: Matcher, i: nat, f: FeatureData)
    requires i < |m|
    ensures MatchesOf(env, m[..i + 1], f)
         == AddMatches(MatchesOf(env, m[..i], f), Place(env, m[i]), ElemsOf(env, m[i], f))
    ensures AllHold(env, m[..i], f) && Holds(env, m[i], f) ==> AllHold(env, m[..i + 1], f)
  {
    hide Holds;
    hide ElemsOf;
    hide AddMatches;
    assert m[..i + 1][..i] == m[..i] && m[..i + 1] == m[..i] + [m[i]];
  }

  /** No term behind one that does not hold is reached. */
  lemma NotReached(env: Env, m: Matcher, f: FeatureData, i: nat)
    requires i < |m| && !Holds(env, m[i], f)
    ensures !AllHold(env, m, f) && forall j | i < j <= |m| :: !AllHold(env, m[..j], f)
  {
    hide Holds;
    assert m[i] in m;
    forall j | i < j <= |m| ensures !AllHold(env, m[..j], f) {
      assert m[..j][i] in m[..j];
    }
  }

  // ----- Rules -----

  datatype Rule = Rule(
    labels: Pairs, vars: Pairs, annotations: Pairs, extendedResources: Pairs, taints: seq<string>,
    labelsTemplate: string, varsTemplate: string, matchAny: seq<Matcher>, matchFeatures: Matcher)

  datatype Output = Output(
    labels: Pairs, vars: Pairs, annotations: Pairs, extendedResources: Pairs, taints: seq<string>)

  const NO_OUTPUT := Output(map[], map[], map[], map[], [])

  /** The result of Execute: an error, or the output, which is empty if the rule did not match. */
  datatype RuleOutcome = RuleFails | RuleNoMatch | RuleMatches(output: Output)

  /** The declarative meaning: some matchAny element holds, if there are any, and so do all matchFeatures terms. */
  ghost predicate RuleHolds(env: Env, r: Rule, f: FeatureData) {
    && (r.matchAny != [] ==> SomeHolds(env, r.matchAny, f))
    && AllHold(env, r.matchFeatures, f)
  }

  function Expand(env: Env, template: string, found: MatchedFeatures): Option<Pairs> {
    if template == "" then Some(map[])
    else
      var text := env.execute(template, found);
      if text.None? then None else AddLines(Split(text.value, '\n'))
  }

  ghost function Expanded(env: Env, template: string, m: Matcher, f: FeatureData): Pairs {
    var e := Expand(env, template, MatchesOf(env, m, f));
    if e.Some? then e.value else map[]
  }

  /** The expansions for all matchAny elements that hold; a rule that is only evaluated up to the first has none. */
  ghost function AnyExpanded(env: Env, template: string, ms: seq<Matcher>, f: FeatureData): Pairs {
    if ms == [] then map[]
    else
      var m := ms[|ms| - 1];
      AnyExpanded(env, template, ms[..|ms| - 1], f)
      + if AllHold(env, m, f) then Expanded(env, template, m, f) else map[]
  }

  /** Expansions of every matching element, then of matchFeatures, then the fixed pairs. */
  ghost function Produced(env: Env, template: string, fixed: Pairs, r: Rule, f: FeatureData): Pairs {
    AnyExpanded(env, template, r.matchAny, f)
    + (if r.matchFeatures != [] then Expanded(env, template, r.matchFeatures, f) else map[])
    + fixed
  }

  ghost function OutputOf(env: Env, r: Rule, f: FeatureData): Output {
    Output(Produced(env, r.labelsTemplate, r.labels, r, f), Produced(env, r.varsTemplate, r.vars, r, f),
           r.annotations, r.extendedResources, r.taints)
  }

  /** A matcher evaluates without error and so do the templates on what it finds. */
  ghost predicate ElemPasses(mo: MapOrder, env: Env, r: Rule, m: Matcher, f: FeatureData) {
    && MatcherPasses(mo, env, m, f)
    && (AllHold(env, m, f) ==>
          && Expand(env, r.labelsTemplate, MatchesOf(env, m, f)).Some?
          && Expand(env, r.varsTemplate, MatchesOf(env, m, f)).Some?)
  }

  predicate Templated(r: Rule) {
    r.labelsTemplate != "" || r.varsTemplate != ""
  }

  ghost predicate SomeHolds(env: Env, ms: seq<Matcher>, f: FeatureData) {
    exists m | m in ms :: AllHold(env, m, f)
  }

  /** Every matchAny element that is evaluated gives no error; without templates none behind the first match is. */
  ghost predicate AnyPasses(mo: MapOrder, env: Env, r: Rule, f: FeatureData) {
    forall i | 0 <= i < |r.matchAny| && (Templated(r) || !SomeHolds(env, r.matchAny[..i], f)) ::
      ElemPasses(mo, env, r, r.matchAny[i], f)
  }

  /** No evaluation that the rule comes to gives an error. */
  ghost predicate RulePasses(mo: MapOrder, env: Env, r: Rule, f: FeatureData) {
    && AnyPasses(mo, env, r, f)
    && (r.matchFeatures != [] && (r.matchAny == [] || SomeHolds(env, r.matchAny, f)) ==>
          ElemPasses(mo, env, r, r.matchFeatures, f))
  }

  /** executeLabelsTemplate and executeVarsTemplate */
  method ExecuteTemplate(env: Env, template: string, found: MatchedFeatures, out0: Pairs) returns (out: Option<Pairs>)
    ensures var e := Expand(env, template, found);
      out == if e.None? then None else Some(out0 + e.value)
  {
    if template == "" {
      assert out0 + map[] == out0;
      return Some(out0);
    }
    var text := env.execute(template, found);
    if text.None? {
      return None;
    }
    var pairs := ExpandMap(text.value);
    return if pairs.None? then None else Some(out0 + pairs.value);
  }

  /** Both templates of a rule on what a matcher has found. */
  method ExecuteTemplates(env: Env, r: Rule, ghost m: Matcher, ghost f: FeatureData,
                          labels: Pairs, vars: Pairs, found: MatchedFeatures)
    returns (out: Option<(Pairs, Pairs)>)
    requires AllHold(env, m, f) && found == MatchesOf(env, m, f) && MatcherPasses(MismatchesFirst, env, m, f)
    ensures out.Some? ==> out.value.0 == labels + Expanded(env, r.labelsTemplate, m, f)
    ensures out.Some? ==> out.value.1 == vars + Expanded(env, r.varsTemplate, m, f)
    ensures out.Some? ==> ElemPasses(MismatchesFirst, env, r, m, f)
    ensures out.None? ==> !ElemPasses(ErrorsFirst, env, r, m, f)
  {
    hide AllHold;
    hide MatcherPasses;
    hide MatchesOf;
    hide Expand;
    var more := ExecuteTemplate(env, r.labelsTemplate, found, labels);
    if more.None? {
      return None;
    }
    var moreVars := ExecuteTemplate(env, r.varsTemplate, found, vars);
    if moreVars.None? {
      return None;
    }
    return Some((more.value, moreVars.value));
  }

  /** The loop over matchAny, with its early exit; None is an error. */
  method EvalAny(env: Env, r: Rule, f: FeatureData) returns (o: Option<bool>, labels: Pairs, vars: Pairs)
    ensures o.Some? ==> (o.value <==> SomeHolds(env, r.matchAny, f))
    ensures o.Some? ==> labels == AnyExpanded(env, r.labelsTemplate, r.matchAny, f)
    ensures o.Some? ==> vars == AnyExpanded(env, r.varsTemplate, r.matchAny, f)
    ensures o.Some? ==> AnyPasses(MismatchesFirst, env, r, f)
    ensures o.None? ==> !AnyPasses(ErrorsFirst, env, r, f)
  {
    hide AllHold;
    hide MatcherPasses;
    hide MatchesOf;
    hide Expanded;
    hide AnyExpanded;
    hide ElemPasses;
    hide Expand;
    hide SomeHolds;
    labels, vars := map[], map[];
    NothingAny(env, f);
    var matched, i := false, 0;
    var ms := r.matchAny;
    while i < |ms|
      invariant 0 <= i <= |ms|
      invariant matched <==> SomeHolds(env, ms[..i], f)
      invariant matched ==> Templated(r)
      invariant labels == AnyExpanded(env, r.labelsTemplate, ms[..i], f)
      invariant vars == AnyExpanded(env, r.varsTemplate, ms[..i], f)
      invariant forall j | 0 <= j < i :: ElemPasses(MismatchesFirst, env, r, ms[j], f)
    {
      AnyStep(env, r.labelsTemplate, ms, i, f);
      AnyStep(env, r.varsTemplate, ms, i, f);
      SomeHoldsStep(env, ms, i, f);
      var isMatch := EvalMatcher(env, ms[i], f);
      ElemPassesHow(env, r, ms[i], f);
      if isMatch.MatcherFails? {
        return None, labels, vars;
      }
      if isMatch.MatcherMatches? {
        matched := true;
        if !Templated(r) {
          FirstMatch(env, r, f, i);
          break;
        }
        var more := ExecuteTemplates(env, r, ms[i], f, labels, vars, isMatch.found);
        if more.None? {
          return None, labels, vars;
        }
        labels, vars := more.value.0, more.value.1;
      }
      i := i + 1;
    }
    assert ms[..|ms|] == ms;
    return Some(matched), labels, vars;
  }

  lemma ElemPassesHow(env: Env, r: Rule, m: Matcher, f: FeatureData)
    ensures !MatcherPasses(ErrorsFirst, env, m, f) ==> !ElemPasses(ErrorsFirst, env, r, m, f)
    ensures MatcherPasses(MismatchesFirst, env, m, f) && (!AllHold(env, m, f) || !Templated(r)) ==>
      ElemPasses(MismatchesFirst, env, r, m, f)
  {
    hide AllHold;
    hide MatcherPasses;
    hide MatchesOf;
  }

  lemma SomeHoldsStep(env: Env, ms: seq<Matcher>, i: nat, f: FeatureData)
    requires i < |ms|
    ensures SomeHolds(env, ms[..i + 1], f) <==> SomeHolds(env, ms[..i], f) || AllHold(env, ms[i], f)
  {
    hide AllHold;
    assert ms[..i + 1] == ms[..i] + [ms[i]];
    assert ms[i] in ms[..i + 1] && forall m | m in ms[..i] :: m in ms[..i + 1];
  }

  /** Without templates the first match decides: nothing behind it is evaluated or would add anything. */
  lemma FirstMatch(env: Env, r: Rule, f: FeatureData, i: nat)
    requires !Templated(r) && i < |r.matchAny| && AllHold(env, r.matchAny[i], f)
    ensures SomeHolds(env, r.matchAny, f) && forall j | i < j <= |r.matchAny| :: SomeHolds(env, r.matchAny[..j], f)
    ensures AnyExpanded(env, "", r.matchAny, f) == map[] == AnyExpanded(env, "", r.matchAny[..i], f)
  {
    hide AllHold;
    var ms := r.matchAny;
    assert ms[i] in ms;
    forall j | i < j <= |ms| ensures SomeHolds(env, ms[..j], f) {
      assert ms[..j][i] in ms[..j];
    }
    NothingExpanded(env, ms, f);
    NothingExpanded(env, ms[..i], f);
  }

  lemma AnyStep(env: Env, template: string, ms: seq<Matcher>, i: nat, f: FeatureData)
    requires i < |ms|
    ensures AnyExpanded(env, template, ms[..i + 1], f)
         == AnyExpanded(env, template, ms[..i], f)
            + if AllHold(env, ms[i], f) then Expanded(env, template, ms[i], f) else map[]
  {
    assert ms[..i + 1][..i] == ms[..i];
  }

  /** Without a template the elements after the first match would add nothing. */
  lemma {:induction false} NothingExpanded(env: Env, ms: seq<Matcher>, f: FeatureData)
    ensures AnyExpanded(env, "", ms, f) == map[]
  {
    if ms != [] {
      NothingExpanded(env, ms[..|ms| - 1], f);
    }
  }

  /**
  Execute. A result is the declared one whatever the order of the maps, and an
  error is returned only if some evaluation has one.
  */
  method Execute(env: Env, r: Rule, f: FeatureData) returns (o: RuleOutcome)
    ensures Possible(env, r, f, o)
  {
    hide AllHold;
    hide MatcherPasses;
    hide AnyPasses;
    hide SomeHolds;
    hide MatchesOf;
    hide AnyExpanded;
    hide Expand;
    var labels: Pairs, vars: Pairs := map[], map[];
    NothingAny(env, f);
    if |r.matchAny| > 0 {
      var matched;
      matched, labels, vars := EvalAny(env, r, f);
      if matched.None? {
        return RuleFails;
      }
      if !matched.value {
        return RuleNoMatch;
      }
    }
    NothingHolds(env, f);
    if |r.matchFeatures| > 0 {
      var isMatch := EvalMatcher(env, r.matchFeatures, f);
      if isMatch.MatcherFails? {
        return RuleFails;
      }
      if isMatch.MatcherNoMatch? {
        return RuleNoMatch;
      }
      var more := ExecuteTemplates(env, r, r.matchFeatures, f, labels, vars, isMatch.found);
      if more.None? {
        return RuleFails;
      }
      labels, vars := more.value.0, more.value.1;
    }
    labels, vars := labels + r.labels, vars + r.vars;
    return RuleMatches(Output(labels, vars, r.annotations, r.extendedResources, r.taints));
  }

  /** What executing a rule can come to. */
  ghost predicate Possible(env: Env, r: Rule, f: FeatureData, o: RuleOutcome) {
    match o
    case RuleMatches(output) =>
      RulePasses(MismatchesFirst, env, r, f) && RuleHolds(env, r, f) && output == OutputOf(env, r, f)
    case RuleNoMatch => RulePasses(MismatchesFirst, env, r, f) && !RuleHolds(env, r, f)
    case RuleFails => !RulePasses(ErrorsFirst, env, r, f)
  }

  lemma NothingAny(env: Env, f: FeatureData)
    ensures forall template :: AnyExpanded(env, template, [], f) == map[]
    ensures !SomeHolds(env, [], f)
    ensures forall mo, r: Rule | r.matchAny == [] :: AnyPasses(mo, env, r, f)
  {
  }

  lemma NothingHolds(env: Env, f: FeatureData)
    ensures AllHold(env, [], f)
  {
  }

  /** Without evaluation errors the outcome is determined: the output if the rule holds, and else nothing. */
  lemma Determined(env: Env, r: Rule, f: FeatureData, o: RuleOutcome)
    requires RulePasses(ErrorsFirst, env, r, f) && Possible(env, r, f, o)
    ensures o == if RuleHolds(env, r, f) then RuleMatches(OutputOf(env, r, f)) else RuleNoMatch
  {
  }

  // ----- What a template sees -----

  function Found(ms: MatchedFeatures, domain: string, name: string): seq<MatchedElement> {
    if domain in ms && name in ms[domain] then ms[domain][name] else []
  }

  /** The elements of all terms on one feature, one after the other. */
  ghost function AllElems(env: Env, m: Matcher, f: FeatureData, place: (string, string)): seq<MatchedElement> {
    if m == [] then []
    else
      var t := m[|m| - 1];
      AllElems(env, m[..|m| - 1], f, place) + if Place(env, t) == place then ElemsOf(env, t, f) else []
  }

  /** Terms on the same feature add up, and terms on different ones do not mix. */
  lemma {:induction false} TermsAddUp(env: Env, m: Matcher, f: FeatureData, domain: string, name: string)
    ensures Found(MatchesOf(env, m, f), domain, name) == AllElems(env, m, f, (domain, name))
  {
    hide ElemsOf;
    hide Place;
    if m != [] {
      var init, t := m[..|m| - 1], m[|m| - 1];
      TermsAddUp(env, init, f, domain, name);
      AddedAt(MatchesOf(env, init, f), Place(env, t), ElemsOf(env, t, f), domain, name);
    }
  }

  lemma AddedAt(ms: MatchedFeatures, place: (string, string), elems: seq<MatchedElement>, domain: string, name: string)
    ensures Found(AddMatches(ms, place, elems), domain, name)
         == Found(ms, domain, name) + if place == (domain, name) then elems else []
  {
  }

  /** A feature is filed by what is in front of and behind its first dot. */
  lemma PlaceSpelled(env: Env, t: Term, domain: string, name: string)
    requires '.' !in domain
    ensures t.feature == domain + "." + name ==> Place(env, t) == (domain, name)
    ensures '.' !in t.feature ==> Place(env, t) == (env.lower(t.feature), "")
  {
    if t.feature == domain + "." + name {
      CutAt(domain, name, '.');
    }
  }

  /** An element carries its name, and its value if it is an attribute. */
  lemma ElementFields(values: Attributes, n: string)
    ensures NameElem()(n) == map["Name" := n]
    ensures ValueElem(values)(n).Keys == {"Name", "Value"} && ValueElem(values)(n)["Name"] == n
    ensures n in values ==> ValueElem(values)(n)["Value"] == values[n]
  {
  }

  /** Among sets of one name a flag set hides the others, and an attribute set hides an instance set. */
  lemma KindPrecedence(f: FeatureData, n: string)
    ensures n in f.flags ==> Lookup(f, n) == Lookup(FeatureData(f.flags, map[], map[]), n) == Some(Flags(f.flags[n]))
    ensures n !in f.flags && n in f.attributes ==>
      Lookup(f, n) == Lookup(FeatureData(map[], f.attributes, map[]), n) == Some(Values(f.attributes[n]))
    ensures n !in f.flags && n !in f.attributes && n in f.instances ==>
      Lookup(f, n) == Lookup(FeatureData(map[], map[], f.instances), n) == Some(Instances(f.instances[n]))
    ensures n !in f.flags && n !in f.attributes && n !in f.instances ==> Lookup(f, n) == None
  {
  }

  // ----- What a rule puts out -----

  /** The expansion of the last matchAny element that holds and gives the name. */
  lemma {:induction false} AnyOfLast(env: Env, template: string, ms: seq<Matcher>, f: FeatureData, k: string, i: nat)
    requires i < |ms| && AllHold(env, ms[i], f) && k in Expanded(env, template, ms[i], f)
    requires forall j | i < j < |ms| && AllHold(env, ms[j], f) :: k !in Expanded(env, template, ms[j], f)
    ensures k in AnyExpanded(env, template, ms, f)
    ensures AnyExpanded(env, template, ms, f)[k] == Expanded(env, template, ms[i], f)[k]
    decreases ms
  {
    hide AllHold;
    hide Expanded;
    if i < |ms| - 1 {
      AnyOfLast(env, template, ms[..|ms| - 1], f, k, i);
    }
  }

  /**
  The output of a rule that matches: its fixed pairs, which override expanded
  ones; the expansion of matchFeatures, which overrides those of matchAny; and
  annotations, extended resources and taints as they stand in the rule.
  */
  lemma OutputExactly(env: Env, r: Rule, f: FeatureData, out: Output, k: string)
    requires Possible(env, r, f, RuleMatches(out))
    ensures k in r.labels ==> k in out.labels && out.labels[k] == r.labels[k]
    ensures k in r.vars ==> k in out.vars && out.vars[k] == r.vars[k]
    ensures var e := Expanded(env, r.labelsTemplate, r.matchFeatures, f);
      k !in r.labels && r.matchFeatures != [] && k in e ==> k in out.labels && out.labels[k] == e[k]
    ensures var e := Expanded(env, r.varsTemplate, r.matchFeatures, f);
      k !in r.vars && r.matchFeatures != [] && k in e ==> k in out.vars && out.vars[k] == e[k]
    ensures var e := Expanded(env, r.labelsTemplate, r.matchFeatures, f);
      var any := AnyExpanded(env, r.labelsTemplate, r.matchAny, f);
      k !in r.labels && (r.matchFeatures == [] || k !in e) ==>
        (k in out.labels <==> k in any) && (k in any ==> out.labels[k] == any[k])
    ensures var e := Expanded(env, r.varsTemplate, r.matchFeatures, f);
      var any := AnyExpanded(env, r.varsTemplate, r.matchAny, f);
      k !in r.vars && (r.matchFeatures == [] || k !in e) ==>
        (k in out.vars <==> k in any) && (k in any ==> out.vars[k] == any[k])
    ensures out.annotations == r.annotations && out.extendedResources == r.extendedResources && out.taints == r.taints
  {
    hide AnyExpanded;
    hide Expanded;
    hide RulePasses;
    hide RuleHolds;
  }

  // ----- And and or -----

  /** A rule needs one of its matchAny elements and all of its matchFeatures terms. */
  lemma RuleLaws(env: Env, r: Rule, a: seq<Matcher>, b: seq<Matcher>, x: Matcher, y: Matcher, f: FeatureData)
    ensures SomeHolds(env, a + b, f) <==> SomeHolds(env, a, f) || SomeHolds(env, b, f)
    ensures SomeHolds(env, [x], f) <==> AllHold(env, x, f)
    ensures AllHold(env, x + y, f) <==> AllHold(env, x, f) && AllHold(env, y, f)
    ensures RuleHolds(env, r.(matchAny := [x], matchFeatures := y), f) <==> AllHold(env, x + y, f)
    ensures RuleHolds(env, r.(matchAny := [], matchFeatures := y), f) <==> AllHold(env, y, f)
    ensures a != [] && b != [] ==>
      (RuleHolds(env, r.(matchAny := a + b), f) <==>
         RuleHolds(env, r.(matchAny := a), f) || RuleHolds(env, r.(matchAny := b), f))
  {
    hide Holds;
    EitherHolds(env, a, b, f);
    assert x in [x];
    assert forall t | t in x :: t in x + y;
    assert forall t | t in y :: t in x + y;
  }

  lemma EitherHolds(env: Env, a: seq<Matcher>, b: seq<Matcher>, f: FeatureData)
    ensures SomeHolds(env, a + b, f) <==> SomeHolds(env, a, f) || SomeHolds(env, b, f)
  {
    hide AllHold;
    assert forall m | m in a :: m in a + b;
    assert forall m | m in b :: m in a + b;
  }

  /** A set of expressions needs each of them; of instances one is enough, taken as a set of attributes. */
  lemma SetLaws(lib: Lib, m: ExpressionSet, keys: set<string>, values: Attributes, a: seq<Attributes>,
                b: seq<Attributes>)
    ensures SetHolds(lib, m, Flags(keys)) <==>
      forall n | n in m :: EvalKey(m[n], n in keys) == Some(true)
    ensures SetHolds(lib, m, Values(values)) <==>
      forall n | n in m :: Eval(lib, m[n], if n in values then Some(values[n]) else None) == Some(true)
    ensures SetHolds(lib, m, Instances(a + b)) <==> SetHolds(lib, m, Instances(a)) || SetHolds(lib, m, Instances(b))
    ensures SetHolds(lib, m, Instances([values])) <==> SetHolds(lib, m, Values(values))
    ensures !SetHolds(lib, m, Instances([]))
  {
    hide Eval;
    assert forall i | i in a :: i in a + b;
    assert forall i | i in b :: i in a + b;
    assert values in [values];
  }

  /** A name expression needs one name that satisfies it. */
  lemma NameLaws(lib: Lib, e: Expression, keys: set<string>, values: Attributes, a: seq<Attributes>, b: seq<Attributes>)
    ensures NameHolds(lib, e, Flags(keys)) <==> exists n | n in keys :: Eval(lib, e, Some(n)) == Some(true)
    ensures NameHolds(lib, e, Values(values)) <==> NameHolds(lib, e, Flags(values.Keys))
    ensures NameHolds(lib, e, Instances(a + b)) <==> NameHolds(lib, e, Instances(a)) || NameHolds(lib, e, Instances(b))
    ensures NameHolds(lib, e, Instances([values])) <==> NameHolds(lib, e, Values(values))
    ensures !NameHolds(lib, e, Instances([]))
  {
    hide Eval;
    assert forall i | i in a :: i in a + b;
    assert forall i | i in b :: i in a + b;
    assert values in [values];
    assert NameHolds(lib, e, Flags(keys)) <==> SomeTrue(keys, NameVerdict(lib, e));
    forall n ensures NameVerdict(lib, e)(n) == Eval(lib, e, Some(n)) {
    }
  }

  /** A term is its expressions and its name expression; the elements of the former come first. */
  lemma TermLaws(lib: Lib, t: Term, s: FeatureSet)
    ensures TermHolds(lib, t, s) <==> TermHolds(lib, t.(name := None), s) && TermHolds(lib, t.(expressions := None), s)
    ensures TermElems(lib, t, s) == TermElems(lib, t.(name := None), s) + TermElems(lib, t.(expressions := None), s)
    ensures t.expressions.Some? && t.name.None? ==> (TermHolds(lib, t, s) <==> SetHolds(lib, t.expressions.value, s))
    ensures t.expressions.None? && t.name.Some? ==> (TermHolds(lib, t, s) <==> NameHolds(lib, t.name.value, s))
    ensures t.expressions.None? && t.name.None? ==> TermHolds(lib, t, s) && TermElems(lib, t, s) == []
  {
    hide SetHolds;
    hide NameHolds;
    hide SetElems;
    hide NameElems;
  }
}
