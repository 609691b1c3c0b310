/**
Match expressions of node feature rules: evaluation against one input, against
the names and values of a feature set, and what validation guarantees
(pkg/apis/nfd/v1alpha1/nodefeaturerule/expression.go, source/custom/api/expression.go).
*/
module Expressions {
  import opened Basics
  import opened Ordering
  import opened Names

  datatype Op =
    | Any | In | NotIn | InRegexp | Exists | DoesNotExist | Gt | Lt | GtLt | IsTrue | IsFalse
    | Other(name: string)

  datatype Expression = Expression(op: Op, values: seq<string>)

  /** strconv.Atoi and regexp.Compile, of which nothing is assumed. */
  datatype Lib = Lib(atoi: string -> Option<int>, compile: string -> Option<string -> bool>)

  // ----- One input -----

  predicate AllCompile(lib: Lib, regexps: seq<string>) {
    forall i | 0 <= i < |regexps| :: lib.compile(regexps[i]).Some?
  }

  predicate SomeMatches(lib: Lib, regexps: seq<string>, v: string)
    requires AllCompile(lib, regexps)
  {
    exists i | 0 <= i < |regexps| :: lib.compile(regexps[i]).value(v)
  }

  function EvalEmpty(values: seq<string>, verdict: bool): Option<bool> {
    if values != [] then None else Some(verdict)
  }

  function EvalNumber(lib: Lib, e: Expression, v: string): Option<bool> {
    if |e.values| != 1 || lib.atoi(v).None? || lib.atoi(e.values[0]).None? then None
    else
      var l, r := lib.atoi(v).value, lib.atoi(e.values[0]).value;
      Some((l < r && e.op.Lt?) || (l > r && e.op.Gt?))
  }

  function EvalBetween(lib: Lib, e: Expression, v: string): Option<bool> {
    if |e.values| != 2 || lib.atoi(v).None? || lib.atoi(e.values[0]).None? || lib.atoi(e.values[1]).None? then None
    else
      var n, lo, hi := lib.atoi(v).value, lib.atoi(e.values[0]).value, lib.atoi(e.values[1]).value;
      if lo >= hi then None else Some(lo < n < hi)
  }

  /** The operators that look at the value of an existing input. */
  function EvalValue(lib: Lib, e: Expression, v: string): Option<bool> {
    match e.op
    case In => if e.values == [] then None else Some(v in e.values)
    case NotIn => if e.values == [] then None else Some(v !in e.values)
    case InRegexp => if e.values == [] || !AllCompile(lib, e.values) then None else Some(SomeMatches(lib, e.values, v))
    case Gt => EvalNumber(lib, e, v)
    case Lt => EvalNumber(lib, e, v)
    case GtLt => EvalBetween(lib, e, v)
    case IsTrue => EvalEmpty(e.values, v == "true")
    case IsFalse => EvalEmpty(e.values, v == "false")
    case _ => None
  }

  /** evaluateMatchExpression; None is an error. */
  function Eval(lib: Lib, e: Expression, input: Option<string>): Option<bool> {
    match e.op
    case Other(_) => None
    case Any => EvalEmpty(e.values, true)
    case Exists => EvalEmpty(e.values, input.Some?)
    case DoesNotExist => EvalEmpty(e.values, input.None?)
    case _ => if input.None? then Some(false) else EvalValue(lib, e, input.value)
  }

  /** MatchExpression.Validate */
  predicate Validate(lib: Lib, e: Expression) {
    match e.op
    case Other(_) => false
    case Any => e.values == []
    case Exists => e.values == []
    case DoesNotExist => e.values == []
    case IsTrue => e.values == []
    case IsFalse => e.values == []
    case Gt => |e.values| == 1 && lib.atoi(e.values[0]).Some?
    case Lt => |e.values| == 1 && lib.atoi(e.values[0]).Some?
    case GtLt =>
      && |e.values| == 2 && lib.atoi(e.values[0]).Some? && lib.atoi(e.values[1]).Some?
      && lib.atoi(e.values[0]).value < lib.atoi(e.values[1]).value
    case InRegexp => e.values != [] && AllCompile(lib, e.values)
    case In => e.values != []
    case NotIn => e.values != []
  }

  predicate Numeric(op: Op) {
    op.Gt? || op.Lt? || op.GtLt?
  }

  /** An accepted expression fails exactly for a numeric operator on an existing input that is not an integer. */
  lemma AcceptedErrors(lib: Lib, e: Expression, input: Option<string>)
    requires Validate(lib, e)
    ensures Eval(lib, e, input).None? <==> Numeric(e.op) && input.Some? && lib.atoi(input.value).None?
  {
  }

  /** Validation accepts exactly the expressions that can be evaluated on an integer, on any one of them. */
  lemma ValidateExact(lib: Lib, e: Expression, number: string)
    requires lib.atoi(number).Some?
    ensures Validate(lib, e) <==> Eval(lib, e, Some(number)).Some?
  {
  }

  /** Hence what is accepted evaluates on a missing input, where every operator on values is false. */
  lemma AcceptedOnMissing(lib: Lib, e: Expression)
    requires Validate(lib, e)
    ensures Eval(lib, e, None) == Some(e.op.Any? || e.op.DoesNotExist?)
  {
  }

  // ----- What the operators mean -----

  predicate Listed(values: seq<string>, v: string) {
    exists i | 0 <= i < |values| :: values[i] == v
  }

  /** Which existing inputs satisfy an accepted expression, operator by operator. */
  lemma OperatorMeanings(lib: Lib, e: Expression, v: string)
    requires Validate(lib, e)
    ensures e.op.In? ==> Eval(lib, e, Some(v)) == Some(Listed(e.values, v))
    ensures e.op.NotIn? ==> Eval(lib, e, Some(v)) == Some(!Listed(e.values, v))
    ensures e.op.InRegexp? ==>
      (Eval(lib, e, Some(v)) == Some(true) <==>
         exists i | 0 <= i < |e.values| :: lib.compile(e.values[i]).Some? && lib.compile(e.values[i]).value(v))
    ensures e.op.Gt? && lib.atoi(v).Some? ==>
      Eval(lib, e, Some(v)) == Some(lib.atoi(v).value > lib.atoi(e.values[0]).value)
    ensures e.op.Lt? && lib.atoi(v).Some? ==>
      Eval(lib, e, Some(v)) == Some(lib.atoi(v).value < lib.atoi(e.values[0]).value)
    ensures e.op.GtLt? && lib.atoi(v).Some? ==>
      Eval(lib, e, Some(v))
      == Some(lib.atoi(e.values[0]).value < lib.atoi(v).value && lib.atoi(v).value < lib.atoi(e.values[1]).value)
    ensures e.op.IsTrue? ==> Eval(lib, e, Some(v)) == Some(v == "true")
    ensures e.op.IsFalse? ==> Eval(lib, e, Some(v)) == Some(v == "false")
    ensures e.op.Any? ==> Eval(lib, e, Some(v)) == Some(true)
    ensures e.op.Exists? ==> Eval(lib, e, Some(v)) == Some(true)
    ensures e.op.DoesNotExist? ==> Eval(lib, e, Some(v)) == Some(false)
  {
    if e.op.In? || e.op.NotIn? {
      assert v in e.values <==> Listed(e.values, v);
    }
  }

  /** How the operators relate: complements on an existing input, a range as two comparisons, truth as equality. */
  lemma OperatorLaws(lib: Lib, values: seq<string>, v: string)
    ensures Validate(lib, Expression(In, values)) ==>
      Eval(lib, Expression(In, values), Some(v)).value != Eval(lib, Expression(NotIn, values), Some(v)).value
    ensures Validate(lib, Expression(GtLt, values)) && lib.atoi(v).Some? ==>
      Eval(lib, Expression(GtLt, values), Some(v)).value
      == (&& Eval(lib, Expression(Gt, [values[0]]), Some(v)).value
          && Eval(lib, Expression(Lt, [values[1]]), Some(v)).value)
    ensures Eval(lib, Expression(IsTrue, []), Some(v)) == Eval(lib, Expression(In, ["true"]), Some(v))
    ensures Eval(lib, Expression(IsFalse, []), Some(v)) == Eval(lib, Expression(In, ["false"]), Some(v))
  {
  }

  predicate NotAscending(a: Option<int>, b: Option<int>) {
    a.Some? && b.Some? && a.value >= b.value
  }

  /** What validation refuses, and evaluation on an existing input with it. */
  lemma RefusedExpressions(lib: Lib, e: Expression, v: string)
    ensures var refused := !Validate(lib, e) && Eval(lib, e, Some(v)).None?;
      && (e.op in {In, NotIn, InRegexp} && e.values == [] ==> refused)
      && (e.op in {Any, Exists, DoesNotExist, IsTrue, IsFalse} && e.values != [] ==> refused)
      && (e.op in {Gt, Lt} && |e.values| != 1 ==> refused)
      && (e.op in {Gt, Lt} && |e.values| == 1 && lib.atoi(e.values[0]).None? ==> refused)
      && (e.op.GtLt? && |e.values| != 2 ==> refused)
      && (e.op.GtLt? && |e.values| == 2 && (lib.atoi(e.values[0]).None? || lib.atoi(e.values[1]).None?) ==> refused)
      && (e.op.GtLt? && |e.values| == 2 && NotAscending(lib.atoi(e.values[0]), lib.atoi(e.values[1])) ==> refused)
      && (e.op.InRegexp? && (exists i | 0 <= i < |e.values| :: lib.compile(e.values[i]).None?) ==> refused)
      && (e.op.Other? ==> refused)
  {
  }

  /** On a flag, existence is all that can be asked, and the verdict is the one for an attribute of that name. */
  lemma KeyMeanings(lib: Lib, e: Expression, present: bool, v: string)
    ensures e.op.Any? ==> EvalKey(e, present) == Some(true)
    ensures e.op.Exists? ==> EvalKey(e, present) == Some(present)
    ensures e.op.DoesNotExist? ==> EvalKey(e, present) == Some(!present)
    ensures e.op !in {Any, Exists, DoesNotExist} ==> EvalKey(e, present) == None
    ensures e.op in {Any, Exists, DoesNotExist} && Validate(lib, e) ==>
      EvalKey(e, present) == Eval(lib, e, if present then Some(v) else None)
  {
  }

  /** evaluateMatchExpression as it is written, with its loops over the values. */
  method EvaluateMatchExpression(lib: Lib, e: Expression, input: Option<string>) returns (r: Option<bool>)
    ensures r == Eval(lib, e, input)
  {
    match e.op
    case Other(_) => return None;
    case Any => return if |e.values| != 0 then None else Some(true);
    case Exists => return if |e.values| != 0 then None else Some(input.Some?);
    case DoesNotExist => return if |e.values| != 0 then None else Some(input.None?);
    case _ =>
    if input.None? {
      return Some(false);
    }
    var v := input.value;
    match e.op
    case In =>
      if |e.values| == 0 { return None; }
      var found := Find(e.values, v);
      return Some(found);
    case NotIn =>
      if |e.values| == 0 { return None; }
      var found := Find(e.values, v);
      return Some(!found);
    case InRegexp => r := MatchRegexps(lib, e.values, v);
    case IsTrue => return if |e.values| != 0 then None else Some(v == "true");
    case IsFalse => return if |e.values| != 0 then None else Some(v == "false");
    case GtLt => r := EvalBetween(lib, e, v);
    case _ => r := EvalNumber(lib, e, v);
  }

  method Find(values: seq<string>, v: string) returns (found: bool)
    ensures found == (v in values)
  {
    var i := 0;
    while i < |values|
      invariant 0 <= i <= |values| && v !in values[..i]
    {
      if v == values[i] {
        return true;
      }
      i := i + 1;
    }
    return false;
  }

  /** All values are compiled before any is matched. */
  method MatchRegexps(lib: Lib, values: seq<string>, v: string) returns (r: Option<bool>)
    ensures r == EvalValue(lib, Expression(InRegexp, values), v)
  {
    if |values| == 0 {
      return None;
    }
    var i := 0;
    while i < |values|
      invariant 0 <= i <= |values| && forall j | 0 <= j < i :: lib.compile(values[j]).Some?
    {
      if lib.compile(values[i]).None? {
        return None;
      }
      i := i + 1;
    }
    i := 0;
    while i < |values|
      invariant 0 <= i <= |values| && forall j | 0 <= j < i :: !lib.compile(values[j]).value(v)
    {
      if lib.compile(values[i]).value(v) {
        return Some(true);
      }
      i := i + 1;
    }
    return Some(false);
  }

  // ----- Expression sets -----

  /** A matched feature, as templates see it. */
  type MatchedElement = map<string, string>

  /** What an expression says about a name; None is an error. */
  type Verdict = string -> Option<bool>

  /** What is handed to the templates for a name. */
  type Elem = string -> MatchedElement

  datatype Outcome = Fails | NoMatch | Matches(elems: seq<MatchedElement>)

  function Elements(names: seq<string>, elem: Elem): (r: seq<MatchedElement>)
    ensures |r| == |names| && forall i | 0 <= i < |r| :: r[i] == elem(names[i])
  {
    seq(|names|, i requires 0 <= i < |names| => elem(names[i]))
  }

  /** evaluateMatchExpressionKeys: only existence can be asked of a flag. */
  function EvalKey(e: Expression, present: bool): Option<bool> {
    match e.op
    case Any => Some(true)
    case Exists => Some(present)
    case DoesNotExist => Some(!present)
    case _ => None
  }

  type ExpressionSet = map<string, Expression>

  function KeyVerdict(m: ExpressionSet, keys: set<string>): string -> Option<bool> {
    n => if n in m then EvalKey(m[n], n in keys) else None
  }

  function ValueOf(values: map<string, string>, n: string): Option<string> {
    if n in values then Some(values[n]) else None
  }

  function ValueVerdict(lib: Lib, m: ExpressionSet, values: map<string, string>): string -> Option<bool> {
    n => if n in m then Eval(lib, m[n], ValueOf(values, n)) else None
  }

  function NameElem(): string -> MatchedElement {
    n => map["Name" := n]
  }

  /** A missing key reads as the empty string. */
  function ValueElem(values: map<string, string>): string -> MatchedElement {
    n => map["Name" := n, "Value" := if n in values then values[n] else ""]
  }

  ghost predicate AllTrue(names: set<string>, verdict: Verdict) {
    forall n | n in names :: verdict(n) == Some(true)
  }

  ghost predicate SomeTrue(names: set<string>, verdict: Verdict) {
    exists n | n in names :: verdict(n) == Some(true)
  }

  ghost predicate NoneFails(names: set<string>, verdict: Verdict) {
    forall n | n in names :: verdict(n).Some?
  }

  ghost predicate SomeFalse(names: set<string>, verdict: Verdict) {
    exists n | n in names :: verdict(n) == Some(false)
  }

  /** The outcome when nothing stops the loop. */
  ghost function Whole(names: set<string>, elem: Elem): Outcome {
    Matches(Elements(SortedNames(names), elem))
  }

  /** The loop along a given order: it ends at the first expression that does not hold. */
  function Along(order: seq<string>, verdict: Verdict, whole: Outcome): Outcome {
    if order == [] then whole
    else if verdict(order[0]).None? then Fails
    else if !verdict(order[0]).value then NoMatch
    else Along(order[1..], verdict, whole)
  }

  /** The common loop of MatchGetKeys and MatchGetValues, in whatever order the map is iterated. */
  method MatchAll(names: set<string>, verdict: Verdict, elem: Elem) returns (r: Outcome, ghost order: seq<string>)
    ensures Enumerates(order, names) && r == Along(order, verdict, Whole(names, elem))
    ensures AllOutcome(names, verdict, elem, r)
  {
    var ret: seq<string> := [];
    var todo := names;
    while todo != {}
      invariant todo <= names && Enumerates(ret, names - todo)
      invariant forall n | n in ret :: verdict(n) == Some(true)
      decreases todo
    {
      ghost var some := Basics.Any(todo);
      var n :| n in todo;
      assert n !in ret by { assert n in ret ==> n in Elems(ret); }
      assert Elems(ret + [n]) == Elems(ret) + {n};
      var v := verdict(n);
      if v.None? || !v.value {
        order := Stopped(ret, n, todo - {n}, names, verdict, Whole(names, elem));
        return if v.None? then Fails else NoMatch, order;
      }
      ret := ret + [n];
      todo := todo - {n};
    }
    StringOrder();
    assert names - {} == names;
    var sorted := CollectSorted(LessString, Elems(ret));
    assert forall n | n in names :: n in Elems(ret);
    NeverStopped(ret, verdict, Whole(names, elem));
    return Matches(Elements(sorted, elem)), ret;
  }

  lemma {:induction false} NeverStopped(order: seq<string>, verdict: Verdict, whole: Outcome)
    requires forall n | n in order :: verdict(n) == Some(true)
    ensures Along(order, verdict, whole) == whole
  {
    if order != [] {
      NeverStopped(order[1..], verdict, whole);
    }
  }

  /** A loop that has passed over some names and ends at the next one, whatever is left. */
  lemma Stopped(before: seq<string>, n: string, left: set<string>, names: set<string>, verdict: Verdict, whole: Outcome)
    returns (order: seq<string>)
    requires Enumerates(before + [n], names - left) && left <= names
    requires (forall k | k in before :: verdict(k) == Some(true)) && verdict(n) != Some(true)
    ensures Enumerates(order, names)
    ensures Along(order, verdict, whole) == if verdict(n).None? then Fails else NoMatch
  {
    var rest := Listing(left);
    order := before + [n] + rest;
    forall i, j | 0 <= i < j < |order| ensures order[i] != order[j] {
      if i <= |before| < j {
        assert order[i] == (before + [n])[i] && order[i] in Elems(before + [n]);
        assert order[j] == rest[j - |before| - 1] && order[j] in Elems(rest);
      } else if j <= |before| {
        assert order[i] == (before + [n])[i] && order[j] == (before + [n])[j];
      }
    }
    assert Elems(order) == Elems(before + [n]) + Elems(rest);
    StoppedAt(before, n, rest, verdict, whole);
  }

  lemma {:induction false} StoppedAt(before: seq<string>, n: string, rest: seq<string>, verdict: Verdict,
                                     whole: Outcome)
    requires (forall k | k in before :: verdict(k) == Some(true)) && verdict(n) != Some(true)
    ensures Along(before + [n] + rest, verdict, whole) == if verdict(n).None? then Fails else NoMatch
  {
    if before != [] {
      StoppedAt(before[1..], n, rest, verdict, whole);
      assert (before + [n] + rest)[1..] == before[1..] + [n] + rest;
    }
  }

  /** MatchGetKeys */
  method MatchGetKeys(m: ExpressionSet, keys: set<string>) returns (r: Outcome)
    ensures AllOutcome(m.Keys, KeyVerdict(m, keys), NameElem(), r)
  {
    ghost var order;
    r, order := MatchAll(m.Keys, KeyVerdict(m, keys), NameElem());
  }

  /** MatchGetValues */
  method MatchGetValues(lib: Lib, m: ExpressionSet, values: map<string, string>) returns (r: Outcome)
    ensures AllOutcome(m.Keys, ValueVerdict(lib, m, values), ValueElem(values), r)
  {
    ghost var order;
    r, order := MatchAll(m.Keys, ValueVerdict(lib, m, values), ValueElem(values));
  }

  // ----- Which outcomes the order can bring about -----

  /** What matching all of some names can come to. */
  ghost predicate AllOutcome(names: set<string>, verdict: Verdict, elem: Elem, r: Outcome) {
    match r
    case Matches(elems) => AllTrue(names, verdict) && r == Whole(names, elem)
    case NoMatch => SomeFalse(names, verdict)
    case Fails => !NoneFails(names, verdict)
  }

  lemma {:induction false} AlongMeans(order: seq<string>, verdict: Verdict, whole: Outcome)
    requires whole.Matches?
    ensures var r := Along(order, verdict, whole);
      && (r.Matches? ==> r == whole && forall n | n in order :: verdict(n) == Some(true))
      && (r.NoMatch? ==> exists n | n in order :: verdict(n) == Some(false))
      && (r.Fails? ==> exists n | n in order :: verdict(n) == None)
  {
    if order != [] {
      AlongMeans(order[1..], verdict, whole);
      assert order[0] in order && forall n | n in order[1..] :: n in order;
    }
  }

  /** An outcome is possible if and only if some order of the names leads to it. */
  lemma OutcomeExactly(names: set<string>, verdict: Verdict, elem: Elem, r: Outcome)
    ensures AllOutcome(names, verdict, elem, r) <==>
      exists order :: Enumerates(order, names) && Along(order, verdict, Whole(names, elem)) == r
  {
    var whole := Whole(names, elem);
    forall order | Enumerates(order, names) && Along(order, verdict, whole) == r
      ensures AllOutcome(names, verdict, elem, r)
    {
      OutcomeOf(order, names, verdict, elem);
    }
    if AllOutcome(names, verdict, elem, r) {
      var order := OrderFor(names, verdict, elem, r);
    }
  }

  lemma OutcomeOf(order: seq<string>, names: set<string>, verdict: Verdict, elem: Elem)
    requires Enumerates(order, names)
    ensures AllOutcome(names, verdict, elem, Along(order, verdict, Whole(names, elem)))
  {
    AlongMeans(order, verdict, Whole(names, elem));
    assert forall n :: n in order <==> n in Elems(order);
  }

  lemma OrderFor(names: set<string>, verdict: Verdict, elem: Elem, r: Outcome) returns (order: seq<string>)
    requires AllOutcome(names, verdict, elem, r)
    ensures Enumerates(order, names) && Along(order, verdict, Whole(names, elem)) == r
  {
    var whole := Whole(names, elem);
    if r.Matches? {
      order := Listing(names);
      assert forall n | n in order :: n in Elems(order);
      NeverStopped(order, verdict, whole);
    } else {
      var n :| n in names && verdict(n) == if r.Fails? then None else Some(false);
      ListingFrom(n, names);
      order := [n] + Listing(names - {n});
    }
  }

  /** The outcome depends on the order if and only if one expression fails and another is false. */
  lemma OrderMattersExactly(names: set<string>, verdict: Verdict, elem: Elem)
    ensures !NoneFails(names, verdict) && SomeFalse(names, verdict) <==>
      exists a, b :: Enumerates(a, names) && Enumerates(b, names) &&
        Along(a, verdict, Whole(names, elem)) != Along(b, verdict, Whole(names, elem))
  {
    var whole := Whole(names, elem);
    if !NoneFails(names, verdict) && SomeFalse(names, verdict) {
      var a := OrderFor(names, verdict, elem, Fails);
      var b := OrderFor(names, verdict, elem, NoMatch);
      assert Along(a, verdict, whole) != Along(b, verdict, whole);
    } else {
      forall a, b | Enumerates(a, names) && Enumerates(b, names)
        ensures Along(a, verdict, whole) == Along(b, verdict, whole)
      {
        OutcomeOf(a, names, verdict, elem);
        OutcomeOf(b, names, verdict, elem);
      }
    }
  }

  /**
  The two extreme ways to iterate: every map brings up a failing expression
  first, if it has one, or every map brings up a false one first.
  */
  datatype MapOrder = ErrorsFirst | MismatchesFirst

  /** In that order the expressions of a set give no error. */
  ghost predicate Passes(mo: MapOrder, names: set<string>, verdict: Verdict) {
    NoneFails(names, verdict) || (mo.MismatchesFirst? && SomeFalse(names, verdict))
  }

  const MIXED: ExpressionSet := map["a" := Expression(Gt, ["1"]), "b" := Expression(Exists, [])]

  /** A comparison with a text and a missing key: one order ends in an error, the other in a mismatch. */
  lemma OrderMattersExample(lib: Lib)
    requires lib.atoi("text").None?
    ensures var verdict := ValueVerdict(lib, MIXED, map["a" := "text"]);
      var whole := Whole(MIXED.Keys, ValueElem(map["a" := "text"]));
      && Enumerates(["a", "b"], MIXED.Keys) && Along(["a", "b"], verdict, whole) == Fails
      && Enumerates(["b", "a"], MIXED.Keys) && Along(["b", "a"], verdict, whole) == NoMatch
  {
    var verdict := ValueVerdict(lib, MIXED, map["a" := "text"]);
    assert Elems(["a", "b"]) == {"a", "b"} && Elems(["b", "a"]) == {"a", "b"} && MIXED.Keys == {"a", "b"};
    assert verdict("a") == None && verdict("b") == Some(false);
  }

  /** With no evaluation error the outcome does not depend on the order of the map. */
  lemma OrderIndependent(names: set<string>, verdict: Verdict, elem: Elem, r: Outcome, r': Outcome)
    requires NoneFails(names, verdict)
    requires AllOutcome(names, verdict, elem, r) && AllOutcome(names, verdict, elem, r')
    ensures r == r'
  {
  }

  // ----- Names -----

  function NameVerdict(lib: Lib, e: Expression): string -> Option<bool> {
    n => Eval(lib, e, Some(n))
  }

  ghost function TrueNames(names: set<string>, verdict: Verdict): set<string> {
    set n | n in names && verdict(n) == Some(true)
  }

  /** What matching some of the names comes to: here even errors are determined. */
  ghost function SomeOutcome(names: set<string>, verdict: Verdict, elem: Elem): Outcome {
    if !NoneFails(names, verdict) then Fails
    else if !SomeTrue(names, verdict) then NoMatch
    else Matches(Elements(SortedNames(TrueNames(names, verdict)), elem))
  }

  /** The common loop of MatchKeyNames and MatchValueNames. */
  method MatchSome(names: set<string>, verdict: Verdict, elem: Elem) returns (r: Outcome)
    ensures r == SomeOutcome(names, verdict, elem)
  {
    var ret: seq<string> := [];
    var todo := names;
    while todo != {}
      invariant todo <= names
      invariant forall n | n in names - todo :: verdict(n).Some?
      invariant Elems(ret) == TrueNames(names - todo, verdict)
      decreases todo
    {
      ghost var some := Basics.Any(todo);
      var n :| n in todo;
      var v := verdict(n);
      if v.None? {
        return Fails;
      }
      todo := todo - {n};
      if v.value {
        assert Elems(ret + [n]) == Elems(ret) + {n};
        ret := ret + [n];
      }
    }
    StringOrder();
    var sorted := CollectSorted(LessString, Elems(ret));
    assert names - {} == names;
    ElemsEmpty(ret);
    ElemsEmpty(sorted);
    if |sorted| > 0 {
      assert sorted[0] in TrueNames(names, verdict);
      return Matches(Elements(sorted, elem));
    }
    assert TrueNames(names, verdict) == {};
    assert forall n | n in names :: n !in TrueNames(names, verdict);
    return NoMatch;
  }

  /** MatchKeyNames */
  method MatchKeyNames(lib: Lib, e: Expression, keys: set<string>) returns (r: Outcome)
    ensures r == SomeOutcome(keys, NameVerdict(lib, e), NameElem())
  {
    r := MatchSome(keys, NameVerdict(lib, e), NameElem());
  }

  /** MatchValueNames */
  method MatchValueNames(lib: Lib, e: Expression, values: map<string, string>) returns (r: Outcome)
    ensures r == SomeOutcome(values.Keys, NameVerdict(lib, e), ValueElem(values))
  {
    r := MatchSome(values.Keys, NameVerdict(lib, e), ValueElem(values));
  }

  // ----- Instances -----

  type Attributes = map<string, string>

  ghost function Filter(instances: seq<Attributes>, p: Attributes -> bool): seq<MatchedElement> {
    if instances == [] then []
    else
      var i := instances[|instances| - 1];
      Filter(instances[..|instances| - 1], p) + if p(i) then [i] else []
  }

  lemma {:induction false} FilterEmpty(instances: seq<Attributes>, p: Attributes -> bool)
    ensures Filter(instances, p) != [] <==> exists i | i in instances :: p(i)
  {
    if instances != [] {
      var init, last := instances[..|instances| - 1], instances[|instances| - 1];
      FilterEmpty(init, p);
      assert instances == init + [last];
    }
  }

  ghost function AllOf(lib: Lib, m: ExpressionSet): Attributes -> bool {
    (i: Attributes) => AllTrue(m.Keys, ValueVerdict(lib, m, i))
  }

  ghost function SomeNameOf(lib: Lib, e: Expression): Attributes -> bool {
    (i: Attributes) => SomeTrue(i.Keys, NameVerdict(lib, e))
  }

  ghost predicate InstancesPass(mo: MapOrder, lib: Lib, m: ExpressionSet, instances: seq<Attributes>) {
    forall i | i in instances :: Passes(mo, m.Keys, ValueVerdict(lib, m, i))
  }

  /** MatchGetInstances: the instances that satisfy the whole set, in order; None is an error. */
  method MatchGetInstances(lib: Lib, m: ExpressionSet, instances: seq<Attributes>)
    returns (r: Option<seq<MatchedElement>>)
    ensures r.Some? ==> r.value == Filter(instances, AllOf(lib, m)) && InstancesPass(MismatchesFirst, lib, m, instances)
    ensures r.None? ==> !InstancesPass(ErrorsFirst, lib, m, instances)
  {
    hide Filter;
    hide NoneFails;
    hide SomeFalse;
    FilterEmpty([], AllOf(lib, m));
    var ret: seq<MatchedElement> := [];
    var k := 0;
    while k < |instances|
      invariant 0 <= k <= |instances|
      invariant ret == Filter(instances[..k], AllOf(lib, m))
      invariant forall i | i in instances[..k] :: Passes(MismatchesFirst, m.Keys, ValueVerdict(lib, m, i))
    {
      var i := instances[k];
      assert i in instances;
      AllTrueNoneFails(m.Keys, ValueVerdict(lib, m, i));
      var o := MatchGetValues(lib, m, i);
      if o.Fails? {
        return None;
      }
      if o.Matches? {
        ret := ret + [i];
      }
      FilterStep(instances, k, AllOf(lib, m));
      assert instances[..k + 1] == instances[..k] + [i];
      k := k + 1;
    }
    assert instances[..|instances|] == instances;
    return Some(ret);
  }

  lemma OneOfThree(v: Option<bool>)
    ensures v == None || v == Some(true) || v == Some(false)
  {
    match v
    case None =>
    case Some(b) => assert b == true || b == false;
  }

  lemma AllTrueNoneFails(names: set<string>, verdict: Verdict)
    ensures AllTrue(names, verdict) ==> NoneFails(names, verdict) && !SomeFalse(names, verdict)
    ensures AllTrue(names, verdict) || SomeFalse(names, verdict) || !NoneFails(names, verdict)
  {
    if NoneFails(names, verdict) && !SomeFalse(names, verdict) {
      forall n | n in names ensures verdict(n) == Some(true) {
        OneOfThree(verdict(n));
        assert verdict(n) != Some(false);
      }
    }
  }

  lemma SomeOutcomes(names: set<string>, verdict: Verdict, elem: Elem)
    ensures var r := SomeOutcome(names, verdict, elem);
      && (r.Fails? <==> !NoneFails(names, verdict))
      && (!r.Fails? ==> (r.Matches? <==> SomeTrue(names, verdict)))
  {
  }

  lemma FilterStep(instances: seq<Attributes>, k: nat, p: Attributes -> bool)
    requires k < |instances|
    ensures Filter(instances[..k + 1], p) == Filter(instances[..k], p) + if p(instances[k]) then [instances[k]] else []
  {
    assert instances[..k + 1][..k] == instances[..k];
  }

  /** MatchInstanceAttributeNames: the instances with a matching attribute name, in order. */
  method MatchInstanceAttributeNames(lib: Lib, e: Expression, instances: seq<Attributes>)
    returns (r: Option<seq<MatchedElement>>)
    ensures r.Some? ==> r.value == Filter(instances, SomeNameOf(lib, e))
    ensures r.None? <==> exists i | i in instances :: !NoneFails(i.Keys, NameVerdict(lib, e))
  {
    hide Filter;
    hide NoneFails;
    hide SomeTrue;
    hide SomeOutcome;
    hide NameVerdict;
    FilterEmpty([], SomeNameOf(lib, e));
    var ret: seq<MatchedElement> := [];
    var k := 0;
    while k < |instances|
      invariant 0 <= k <= |instances|
      invariant forall i | i in instances[..k] :: NoneFails(i.Keys, NameVerdict(lib, e))
      invariant ret == Filter(instances[..k], SomeNameOf(lib, e))
    {
      var i := instances[k];
      SomeOutcomes(i.Keys, NameVerdict(lib, e), ValueElem(i));
      var o := MatchValueNames(lib, e, i);
      if o.Fails? {
        assert i in instances;
        return None;
      }
      if o.Matches? {
        ret := ret + [i];
      }
      assert instances[..k + 1] == instances[..k] + [i];
      FilterStep(instances, k, SomeNameOf(lib, e));
      k := k + 1;
    }
    assert instances[..|instances|] == instances;
    return Some(ret);
  }
}
