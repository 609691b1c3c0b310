/**
Which outcomes of a rule the order of Go's map iteration can bring about. The
rule is run twice on paper: once with every map bringing up a failing
expression first, once with every map bringing up a false one first. These two
runs are all there is: an execution ends like one of them.
*/
module RuleOrders {
  import opened Basics
  import opened Expressions
  import opened Rules

  // ----- Expression sets -----

  /** An order of the names that starts with the kind of expression that is to come first. */
  ghost function FirstOf(mo: MapOrder, names: set<string>, verdict: Verdict): (order: seq<string>)
    ensures Enumerates(order, names)
  {
    var first: Option<bool> := if mo.ErrorsFirst? then None else Some(false);
    if n :| n in names && verdict(n) == first then
      ListingFrom(n, names);
      [n] + Listing(names - {n})
    else Listing(names)
  }

  ghost function AllIn(mo: MapOrder, names: set<string>, verdict: Verdict, elem: Elem): Outcome {
    Along(FirstOf(mo, names, verdict), verdict, Whole(names, elem))
  }

  lemma AllExactly(mo: MapOrder, names: set<string>, verdict: Verdict, elem: Elem)
    ensures AllIn(mo, names, verdict, elem) ==
      if !Passes(mo, names, verdict) then Fails else if AllTrue(names, verdict) then Whole(names, elem) else NoMatch
  {
    hide Whole;
    OutcomeOf(FirstOf(mo, names, verdict), names, verdict, elem);
    AllTrueNoneFails(names, verdict);
  }

  ghost function InstancesIn(mo: MapOrder, lib: Lib, m: ExpressionSet, items: seq<Attributes>)
    : Option<seq<MatchedElement>>
  {
    if items == [] then Some([])
    else
      var before, i := InstancesIn(mo, lib, m, items[..|items| - 1]), items[|items| - 1];
      if before.None? then None
      else
        match AllIn(mo, m.Keys, ValueVerdict(lib, m, i), ValueElem(i))
        case Fails => None
        case NoMatch => before
        case Matches(_) => Some(before.value + [i])
  }

  lemma {:induction false} InstancesExactly(mo: MapOrder, lib: Lib, m: ExpressionSet, items: seq<Attributes>)
    ensures InstancesIn(mo, lib, m, items) ==
      if InstancesPass(mo, lib, m, items) then Some(Filter(items, AllOf(lib, m))) else None
  {
    hide AllIn;
    hide Passes;
    hide InstancesPass;
    hide Filter;
    FilterEmpty([], AllOf(lib, m));
    if items == [] {
      NoInstances(mo, lib, m);
    } else {
      var n := |items| - 1;
      InstancesExactly(mo, lib, m, items[..n]);
      AllExactly(mo, m.Keys, ValueVerdict(lib, m, items[n]), ValueElem(items[n]));
      FilterStep(items, n, AllOf(lib, m));
      InstancesPassStep(mo, lib, m, items);
      assert items[..n + 1] == items;
      var kept := Filter(items[..n], AllOf(lib, m));
      assert kept + [] == kept;
      assert AllOf(lib, m)(items[n]) <==> AllTrue(m.Keys, ValueVerdict(lib, m, items[n]));
    }
  }

  lemma NoInstances(mo: MapOrder, lib: Lib, m: ExpressionSet)
    ensures InstancesPass(mo, lib, m, [])
  {
  }

  lemma InstancesPassStep(mo: MapOrder, lib: Lib, m: ExpressionSet, items: seq<Attributes>)
    requires items != []
    ensures var init, i := items[..|items| - 1], items[|items| - 1];
      InstancesPass(mo, lib, m, items) <==>
        InstancesPass(mo, lib, m, init) && Passes(mo, m.Keys, ValueVerdict(lib, m, i))
  {
    hide Passes;
    hide ValueVerdict;
    var init, i := items[..|items| - 1], items[|items| - 1];
    assert items == init + [i] && i in items;
    assert forall x | x in init :: x in items;
  }

  // ----- Terms -----

  ghost function SetIn(mo: MapOrder, lib: Lib, m: ExpressionSet, s: FeatureSet): Outcome {
    match s
    case Flags(keys) => AllIn(mo, m.Keys, KeyVerdict(m, keys), NameElem())
    case Values(values) => AllIn(mo, m.Keys, ValueVerdict(lib, m, values), ValueElem(values))
    case Instances(items) => FromElems(InstancesIn(mo, lib, m, items))
  }

  lemma SetExactly(mo: MapOrder, lib: Lib, m: ExpressionSet, s: FeatureSet)
    ensures SetIn(mo, lib, m, s) ==
      if !SetPasses(mo, lib, m, s) then Fails
      else if SetHolds(lib, m, s) then Matches(SetElems(lib, m, s))
      else NoMatch
  {
    hide AllIn;
    hide Passes;
    hide InstancesIn;
    hide Filter;
    match s
    case Flags(keys) => AllExactly(mo, m.Keys, KeyVerdict(m, keys), NameElem());
    case Values(values) => AllExactly(mo, m.Keys, ValueVerdict(lib, m, values), ValueElem(values));
    case Instances(items) =>
      InstancesExactly(mo, lib, m, items);
      FilterEmpty(items, AllOf(lib, m));
  }

  ghost function TermIn(mo: MapOrder, lib: Lib, t: Term, s: FeatureSet): Outcome {
    var first := if t.expressions.Some? then SetIn(mo, lib, t.expressions.value, s) else Matches([]);
    if !first.Matches? || t.name.None? then first
    else
      match NameOutcome(lib, t.name.value, s)
      case Matches(elems) => Matches(first.elems + elems)
      case other => other
  }

  lemma TermExactly(mo: MapOrder, lib: Lib, t: Term, s: FeatureSet)
    ensures TermIn(mo, lib, t, s) ==
      if !TermPasses(mo, lib, t, s) then Fails
      else if TermHolds(lib, t, s) then Matches(TermElems(lib, t, s))
      else NoMatch
  {
    hide SetHolds;
    hide NameHolds;
    hide SetPasses;
    hide NameClean;
    hide SetElems;
    hide NameElems;
    hide SetIn;
    if t.expressions.Some? {
      SetExactly(mo, lib, t.expressions.value, s);
    }
  }

  // ----- Matchers -----

  ghost function MatcherIn(mo: MapOrder, env: Env, m: Matcher, f: FeatureData): MatcherOutcome {
    if m == [] then MatcherMatches(map[])
    else
      var before, t := MatcherIn(mo, env, m[..|m| - 1], f), m[|m| - 1];
      var s := Lookup(f, env.lower(t.feature));
      if !before.MatcherMatches? then before
      else if s.None? then MatcherFails
      else
        match TermIn(mo, env.lib, t, s.value)
        case Fails => MatcherFails
        case NoMatch => MatcherNoMatch
        case Matches(elems) => MatcherMatches(AddMatches(before.found, Place(env, t), elems))
  }

  /** One more term decides, if the ones before it hold. */
  lemma PassesStep(mo: MapOrder, env: Env, m: Matcher, f: FeatureData)
    requires m != []
    ensures var init, t := m[..|m| - 1], m[|m| - 1];
      && (AllHold(env, m, f) <==> AllHold(env, init, f) && Holds(env, t, f))
      && (MatcherPasses(mo, env, m, f) <==>
            MatcherPasses(mo, env, init, f) && (AllHold(env, init, f) ==> Evaluates(mo, env, t, f)))
  {
    hide Holds;
    hide Evaluates;
    var init, t := m[..|m| - 1], m[|m| - 1];
    assert m == init + [t];
    forall i | 0 <= i < |init| ensures m[..i] == init[..i] && m[i] == init[i] {
    }
    if MatcherPasses(mo, env, m, f) {
      forall i | 0 <= i < |init| && AllHold(env, init[..i], f) ensures Evaluates(mo, env, init[i], f) {
        assert AllHold(env, m[..i], f);
      }
    }
    if MatcherPasses(mo, env, init, f) && (AllHold(env, init, f) ==> Evaluates(mo, env, t, f)) {
      forall i | 0 <= i < |m| && AllHold(env, m[..i], f) ensures Evaluates(mo, env, m[i], f) {
        if i < |init| {
          assert AllHold(env, init[..i], f);
        }
      }
    }
  }

  lemma {:induction false} MatcherExactly(mo: MapOrder, env: Env, m: Matcher, f: FeatureData)
    ensures MatcherIn(mo, env, m, f) ==
      if !MatcherPasses(mo, env, m, f) then MatcherFails
      else if AllHold(env, m, f) then MatcherMatches(MatchesOf(env, m, f))
      else MatcherNoMatch
  {
    hide AllHold;
    hide MatcherPasses;
    hide TermIn;
    hide TermHolds;
    hide TermPasses;
    hide TermElems;
    if m == [] {
      NoTerms(mo, env, f);
    } else {
      var init, t := m[..|m| - 1], m[|m| - 1];
      MatcherExactly(mo, env, init, f);
      PassesStep(mo, env, m, f);
      var s := Lookup(f, env.lower(t.feature));
      if s.Some? {
        TermExactly(mo, env.lib, t, s.value);
      }
    }
  }

  lemma NoTerms(mo: MapOrder, env: Env, f: FeatureData)
    ensures AllHold(env, [], f) && MatcherPasses(mo, env, [], f)
  {
  }

  // ----- Rules -----

  /** A matcher and, if it matches, both templates on what it finds. */
  ghost function ElemIn(mo: MapOrder, env: Env, r: Rule, m: Matcher, f: FeatureData): Option<bool> {
    match MatcherIn(mo, env, m, f)
    case MatcherFails => None
    case MatcherNoMatch => Some(false)
    case MatcherMatches(found) =>
      if Expand(env, r.labelsTemplate, found).None? || Expand(env, r.varsTemplate, found).None? then None
      else Some(true)
  }

  lemma ElemExactly(mo: MapOrder, env: Env, r: Rule, m: Matcher, f: FeatureData)
    ensures ElemIn(mo, env, r, m, f) == if ElemPasses(mo, env, r, m, f) then Some(AllHold(env, m, f)) else None
  {
    hide AllHold;
    hide MatcherPasses;
    hide MatchesOf;
    hide MatcherIn;
    hide Expand;
    MatcherExactly(mo, env, m, f);
  }

  /** The loop over the first n matchAny elements, which without templates ends at the first match. */
  ghost function AnyIn(mo: MapOrder, env: Env, r: Rule, f: FeatureData, n: nat): Option<bool>
    requires n <= |r.matchAny|
  {
    if n == 0 then Some(false)
    else
      var before := AnyIn(mo, env, r, f, n - 1);
      if before.None? || (before.value && !Templated(r)) then before
      else
        var e := ElemIn(mo, env, r, r.matchAny[n - 1], f);
        if e.None? then None else Some(before.value || e.value)
  }

  ghost predicate AnyPassesTo(mo: MapOrder, env: Env, r: Rule, f: FeatureData, n: nat)
    requires n <= |r.matchAny|
  {
    forall i | 0 <= i < n && (Templated(r) || !SomeHolds(env, r.matchAny[..i], f)) ::
      ElemPasses(mo, env, r, r.matchAny[i], f)
  }

  lemma {:induction false} AnyExactly(mo: MapOrder, env: Env, r: Rule, f: FeatureData, n: nat)
    requires n <= |r.matchAny|
    ensures AnyIn(mo, env, r, f, n) ==
      if AnyPassesTo(mo, env, r, f, n) then Some(SomeHolds(env, r.matchAny[..n], f)) else None
  {
    hide AllHold;
    hide ElemPasses;
    hide ElemIn;
    hide SomeHolds;
    if n == 0 {
      NothingAny(env, f);
      assert r.matchAny[..0] == [];
    } else {
      AnyExactly(mo, env, r, f, n - 1);
      ElemExactly(mo, env, r, r.matchAny[n - 1], f);
      SomeHoldsStep(env, r.matchAny, n - 1, f);
    }
  }

  /** The rule with every map iterated in the given way. */
  ghost function RuleIn(mo: MapOrder, env: Env, r: Rule, f: FeatureData): RuleOutcome {
    var any := if r.matchAny == [] then Some(true) else AnyIn(mo, env, r, f, |r.matchAny|);
    if any.None? then RuleFails
    else if !any.value then RuleNoMatch
    else
      var all := if r.matchFeatures == [] then Some(true) else ElemIn(mo, env, r, r.matchFeatures, f);
      if all.None? then RuleFails else if !all.value then RuleNoMatch else RuleMatches(OutputOf(env, r, f))
  }

  /** Each of the two runs ends as its order passes and as the rule holds. */
  lemma RuleExactly(mo: MapOrder, env: Env, r: Rule, f: FeatureData)
    ensures RuleIn(mo, env, r, f) ==
      if !RulePasses(mo, env, r, f) then RuleFails
      else if RuleHolds(env, r, f) then RuleMatches(OutputOf(env, r, f))
      else RuleNoMatch
  {
    hide AllHold;
    hide ElemPasses;
    hide ElemIn;
    hide AnyIn;
    hide SomeHolds;
    hide OutputOf;
    AnyExactly(mo, env, r, f, |r.matchAny|);
    ElemExactly(mo, env, r, r.matchFeatures, f);
    NothingHolds(env, f);
    assert r.matchAny[..|r.matchAny|] == r.matchAny;
    assert AnyPassesTo(mo, env, r, f, |r.matchAny|) <==> AnyPasses(mo, env, r, f);
  }

  /** An outcome is possible if and only if one of the two runs ends with it. */
  lemma PossibleExactly(env: Env, r: Rule, f: FeatureData, o: RuleOutcome)
    ensures Possible(env, r, f, o) <==> o == RuleIn(ErrorsFirst, env, r, f) || o == RuleIn(MismatchesFirst, env, r, f)
  {
    hide RulePasses;
    hide RuleHolds;
    hide OutputOf;
    hide RuleIn;
    RuleExactly(ErrorsFirst, env, r, f);
    RuleExactly(MismatchesFirst, env, r, f);
    ErrorsFirstIsStricter(env, r, f);
  }

  /** The outcome depends on the map order if and only if the two runs differ, one with an error and one without. */
  lemma RuleOrderMattersExactly(env: Env, r: Rule, f: FeatureData)
    ensures (exists o, o' :: Possible(env, r, f, o) && Possible(env, r, f, o') && o != o') <==>
      !RulePasses(ErrorsFirst, env, r, f) && RulePasses(MismatchesFirst, env, r, f)
  {
    hide RulePasses;
    hide RuleHolds;
    hide OutputOf;
    hide RuleIn;
    hide Possible;
    RuleExactly(ErrorsFirst, env, r, f);
    RuleExactly(MismatchesFirst, env, r, f);
    ErrorsFirstIsStricter(env, r, f);
    forall o
      ensures Possible(env, r, f, o) <==>
        o == RuleIn(ErrorsFirst, env, r, f) || o == RuleIn(MismatchesFirst, env, r, f)
    {
      PossibleExactly(env, r, f, o);
    }
    if !RulePasses(ErrorsFirst, env, r, f) && RulePasses(MismatchesFirst, env, r, f) {
      var o, o' := RuleIn(ErrorsFirst, env, r, f), RuleIn(MismatchesFirst, env, r, f);
      assert Possible(env, r, f, o) && Possible(env, r, f, o') && o != o';
    }
  }

  // ----- Bringing errors up first is the stricter order -----

  lemma SetStricter(lib: Lib, m: ExpressionSet, s: FeatureSet)
    ensures SetPasses(ErrorsFirst, lib, m, s) ==> SetPasses(MismatchesFirst, lib, m, s)
  {
    hide NoneFails;
    hide SomeFalse;
  }

  lemma MatcherStricter(env: Env, m: Matcher, f: FeatureData)
    ensures MatcherPasses(ErrorsFirst, env, m, f) ==> MatcherPasses(MismatchesFirst, env, m, f)
  {
    hide AllHold;
    hide SetPasses;
    hide SetHolds;
    hide NameClean;
    if MatcherPasses(ErrorsFirst, env, m, f) {
      forall i | 0 <= i < |m| && AllHold(env, m[..i], f) ensures Evaluates(MismatchesFirst, env, m[i], f) {
        var s := Lookup(f, env.lower(m[i].feature));
        assert Evaluates(ErrorsFirst, env, m[i], f);
        if m[i].expressions.Some? {
          SetStricter(env.lib, m[i].expressions.value, s.value);
        }
      }
    }
  }

  lemma ErrorsFirstIsStricter(env: Env, r: Rule, f: FeatureData)
    ensures RulePasses(ErrorsFirst, env, r, f) ==> RulePasses(MismatchesFirst, env, r, f)
  {
    hide AllHold;
    hide MatcherPasses;
    hide MatchesOf;
    hide Expand;
    hide SomeHolds;
    forall m ensures MatcherPasses(ErrorsFirst, env, m, f) ==> MatcherPasses(MismatchesFirst, env, m, f) {
      MatcherStricter(env, m, f);
    }
  }
}
