/**
addNsToMapKeys of pkg/nfd-master/nfd-master.go: the default namespace is added
to the keys of a map that have none. Keys are visited in the order of Go's map
iteration, which is a parameter here.
*/
module DefaultNs {
  import opened Basics
  import opened Names

  /** A prefixed key stays; an unprefixed one is dropped if its full name is in the input too. */
  predicate Kept(m: Pairs, ns: string, k: string) {
    k in m && ('/' in k || JoinNs(ns, k) !in m)
  }

  function AddOne(m: Pairs, ns: string, out: Pairs, k: string): Pairs
    requires k in m
  {
    if Kept(m, ns, k) then out[AddNs(k, ns) := m[k]] else out
  }

  function InOrder(m: Pairs, ns: string, order: seq<string>): Pairs
    requires Elems(order) <= m.Keys
  {
    if order == [] then map[]
    else
      assert order[|order| - 1] in Elems(order) && Elems(order[..|order| - 1]) <= Elems(order);
      AddOne(m, ns, InOrder(m, ns, order[..|order| - 1]), order[|order| - 1])
  }

  lemma InOrderStep(m: Pairs, ns: string, order: seq<string>, k: string)
    requires Elems(order) <= m.Keys && k in m && k !in Elems(order) && NoDuplicates(order)
    ensures Elems(order + [k]) == Elems(order) + {k} && NoDuplicates(order + [k])
    ensures InOrder(m, ns, order + [k]) == AddOne(m, ns, InOrder(m, ns, order), k)
  {
    assert (order + [k])[..|order|] == order;
  }

  method AddNsToMapKeys(m: Pairs, ns: string) returns (out: Pairs, ghost order: seq<string>)
    ensures Enumerates(order, m.Keys) && out == InOrder(m, ns, order)
  {
    hide InOrder;
    hide NoDuplicates;
    hide JoinNs;
    out, order := map[], [];
    NoKeys(m, ns);
    var todo := m.Keys;
    while todo != {}
      invariant todo <= m.Keys && Enumerates(order, m.Keys - todo)
      invariant out == InOrder(m, ns, order)
      decreases todo
    {
      ghost var some := Any(todo);
      var k :| k in todo;
      InOrderStep(m, ns, order, k);
      if '/' in k {
        out := out[k := m[k]];
      } else {
        var fqn := JoinNs(ns, k);
        if fqn !in m {
          out := out[fqn := m[k]];
        }
      }
      order := order + [k];
      todo := todo - {k};
    }
  }

  lemma NoKeys(m: Pairs, ns: string)
    ensures NoDuplicates<string>([]) && InOrder(m, ns, []) == map[]
  {
  }

  /** Both keys stand for the bare namespace, and nothing settles which one is used. */
  predicate Ambiguous(m: Pairs, ns: string) {
    "" in m && "." in m && m[""] != m["."] && ns !in m
  }

  /** A namespace, as the three default ones are. */
  predicate IsNs(ns: string) {
    ns != "" && ns != "." && '/' !in ns
  }

  /** Two kept keys get the same full name only if they are the empty key and the single dot. */
  lemma SameName(m: Pairs, ns: string, a: string, b: string)
    requires IsNs(ns) && Kept(m, ns, a) && Kept(m, ns, b) && AddNs(a, ns) == AddNs(b, ns)
    ensures a == b || (a in ["", "."] && b in ["", "."])
  {
    if '/' !in a && '/' !in b && a !in ["", ".", ".."] && b !in ["", ".", ".."] {
      assert JoinNs(ns, a)[|ns| + 1..] == a && JoinNs(ns, b)[|ns| + 1..] == b;
    } else if '/' !in a && '/' !in b {
      assert |JoinNs(ns, a)| == if a in ["", "."] then |ns| else if a == ".." then 1 else |ns| + 1 + |a|;
      assert |JoinNs(ns, b)| == if b in ["", "."] then |ns| else if b == ".." then 1 else |ns| + 1 + |b|;
      assert JoinNs(ns, "..") == "." != ns;
    }
  }

  /** The result has exactly the full names of the kept keys, each with the value of one of them. */
  lemma {:induction false} InOrderContents(m: Pairs, ns: string, order: seq<string>, f: string)
    requires Elems(order) <= m.Keys
    ensures var out := InOrder(m, ns, order);
      && (f in out ==> exists k | k in order :: Kept(m, ns, k) && AddNs(k, ns) == f && m[k] == out[f])
      && (forall k | k in order && Kept(m, ns, k) && AddNs(k, ns) == f :: f in out)
  {
    if order != [] {
      var init, k := order[..|order| - 1], order[|order| - 1];
      InOrderContents(m, ns, init, f);
      assert order == init + [k];
      if Kept(m, ns, k) && AddNs(k, ns) == f {
        assert k in order;
      } else if f in InOrder(m, ns, init) {
        var j :| j in init && Kept(m, ns, j) && AddNs(j, ns) == f && m[j] == InOrder(m, ns, init)[f];
        assert j in order;
      }
    }
  }

  /** Unless the two keys clash, the order does not matter. */
  lemma OrderIrrelevant(m: Pairs, ns: string, a: seq<string>, b: seq<string>)
    requires IsNs(ns) && !Ambiguous(m, ns) && Enumerates(a, m.Keys) && Enumerates(b, m.Keys)
    ensures InOrder(m, ns, a) == InOrder(m, ns, b)
  {
    hide InOrder;
    var x, y := InOrder(m, ns, a), InOrder(m, ns, b);
    forall f ensures f in x <==> f in y {
      InOrderContents(m, ns, a, f);
      InOrderContents(m, ns, b, f);
    }
    forall f | f in x && f in y ensures x[f] == y[f] {
      SameValue(m, ns, a, b, f);
    }
  }

  lemma SameValue(m: Pairs, ns: string, a: seq<string>, b: seq<string>, f: string)
    requires IsNs(ns) && !Ambiguous(m, ns) && Enumerates(a, m.Keys) && Enumerates(b, m.Keys)
    requires f in InOrder(m, ns, a) && f in InOrder(m, ns, b)
    ensures InOrder(m, ns, a)[f] == InOrder(m, ns, b)[f]
  {
    hide InOrder;
    InOrderContents(m, ns, a, f);
    InOrderContents(m, ns, b, f);
    var j :| j in a && Kept(m, ns, j) && AddNs(j, ns) == f && m[j] == InOrder(m, ns, a)[f];
    var k :| k in b && Kept(m, ns, k) && AddNs(k, ns) == f && m[k] == InOrder(m, ns, b)[f];
    SameName(m, ns, j, k);
  }

  /** Only the bare namespace can get different values. */
  lemma SameElsewhere(m: Pairs, ns: string, a: seq<string>, b: seq<string>, f: string)
    requires IsNs(ns) && Enumerates(a, m.Keys) && Enumerates(b, m.Keys)
    ensures f in InOrder(m, ns, a) <==> f in InOrder(m, ns, b)
    ensures f != ns && f in InOrder(m, ns, a) ==> InOrder(m, ns, a)[f] == InOrder(m, ns, b)[f]
  {
    hide InOrder;
    hide AddNs;
    InOrderContents(m, ns, a, f);
    InOrderContents(m, ns, b, f);
    if f != ns && f in InOrder(m, ns, a) {
      var j :| j in a && Kept(m, ns, j) && AddNs(j, ns) == f && m[j] == InOrder(m, ns, a)[f];
      var k :| k in b && Kept(m, ns, k) && AddNs(k, ns) == f && m[k] == InOrder(m, ns, b)[f];
      SameName(m, ns, j, k);
      BareNames(ns);
    }
  }

  lemma BareNames(ns: string)
    ensures AddNs("", ns) == ns && AddNs(".", ns) == ns
  {
  }

  /** The bare namespace is in the result. */
  predicate HasBare(m: Pairs, ns: string) {
    ("" in m || "." in m) && ns !in m
  }

  lemma BareExactly(m: Pairs, ns: string, order: seq<string>)
    requires IsNs(ns) && Enumerates(order, m.Keys)
    ensures ns in InOrder(m, ns, order) <==> HasBare(m, ns)
  {
    hide InOrder;
    InOrderContents(m, ns, order, ns);
    if HasBare(m, ns) {
      var k := if "" in m then "" else ".";
      assert k in order && Kept(m, ns, k) && AddNs(k, ns) == ns;
    } else if ns in InOrder(m, ns, order) {
      var k :| k in order && Kept(m, ns, k) && AddNs(k, ns) == ns;
      BareOnly(ns, k);
    }
  }

  lemma BareOnly(ns: string, k: string)
    requires IsNs(ns) && AddNs(k, ns) == ns
    ensures k == "" || k == "."
  {
    assert '/' !in k ==> |AddNs(k, ns)| == if k in ["", "."] then |ns| else if k == ".." then 1 else |ns| + 1 + |k|;
    assert AddNs("..", ns) == ".";
  }

  /** If they clash, visiting one of them last makes its value the result. */
  lemma LastWins(m: Pairs, ns: string, last: string) returns (order: seq<string>)
    requires Ambiguous(m, ns) && last in ["", "."]
    ensures Enumerates(order, m.Keys) && ns in InOrder(m, ns, order) && InOrder(m, ns, order)[ns] == m[last]
  {
    var rest := Listing(m.Keys - {last});
    order := rest + [last];
    assert last !in Elems(rest) && last in m;
    InOrderStep(m, ns, rest, last);
    assert Kept(m, ns, last) && AddNs(last, ns) == ns;
  }

  /** The result depends on the iteration order exactly if the empty key and the dot clash. */
  lemma OrderMattersExactly(m: Pairs, ns: string)
    requires IsNs(ns)
    ensures Ambiguous(m, ns) <==>
      exists a, b :: Enumerates(a, m.Keys) && Enumerates(b, m.Keys) && InOrder(m, ns, a) != InOrder(m, ns, b)
  {
    if Ambiguous(m, ns) {
      var a := LastWins(m, ns, "");
      var b := LastWins(m, ns, ".");
      assert InOrder(m, ns, a) != InOrder(m, ns, b);
    } else {
      forall a, b | Enumerates(a, m.Keys) && Enumerates(b, m.Keys) ensures InOrder(m, ns, a) == InOrder(m, ns, b) {
        OrderIrrelevant(m, ns, a, b);
      }
    }
  }

  // ----- As configured -----

  /** The result for a map, with default namespaces on or off. */
  ghost predicate Named(auto: bool, m: Pairs, ns: string, named: Pairs) {
    if !auto then named == m
    else exists order :: Enumerates(order, m.Keys) && named == InOrder(m, ns, order)
  }

  method WithDefaultNs(auto: bool, m: Pairs, ns: string) returns (named: Pairs)
    ensures Named(auto, m, ns, named)
  {
    if !auto {
      return m;
    }
    ghost var order;
    named, order := AddNsToMapKeys(m, ns);
  }

  /** Two results for one map differ at most in the bare namespace, and there only if the map is ambiguous. */
  lemma NamedTwice(auto: bool, m: Pairs, ns: string, a: Pairs, b: Pairs)
    requires IsNs(ns) && Named(auto, m, ns, a) && Named(auto, m, ns, b)
    ensures a.Keys == b.Keys && (forall f | f in a && f != ns :: a[f] == b[f])
    ensures !auto || !Ambiguous(m, ns) ==> a == b
    ensures auto ==> (ns in a <==> HasBare(m, ns))
  {
    hide InOrder;
    if auto {
      var x :| Enumerates(x, m.Keys) && a == InOrder(m, ns, x);
      var y :| Enumerates(y, m.Keys) && b == InOrder(m, ns, y);
      forall f ensures (f in a <==> f in b) && (f in a && f != ns ==> a[f] == b[f]) {
        SameElsewhere(m, ns, x, y, f);
      }
      BareExactly(m, ns, x);
      if !Ambiguous(m, ns) {
        OrderIrrelevant(m, ns, x, y);
      }
    }
  }

  /** An ambiguous map has a result with either value. */
  lemma EitherValue(m: Pairs, ns: string, last: string) returns (named: Pairs)
    requires Ambiguous(m, ns) && last in ["", "."]
    ensures Named(true, m, ns, named) && ns in named && named[ns] == m[last]
  {
    var order := LastWins(m, ns, last);
    named := InOrder(m, ns, order);
  }

  /** Every map has a result. */
  lemma SomeResult(auto: bool, m: Pairs, ns: string) returns (named: Pairs)
    ensures Named(auto, m, ns, named)
  {
    var order := Listing(m.Keys);
    named := if auto then InOrder(m, ns, order) else m;
  }

  /** Two iteration orders of one map with different results. */
  lemma OrderMattersExample()
    ensures var m: Pairs := map["" := "yes", "." := "no"];
      && Enumerates(["", "."], m.Keys) && Enumerates([".", ""], m.Keys)
      && InOrder(m, FEATURE_NS, ["", "."]) == map[FEATURE_NS := "no"]
      && InOrder(m, FEATURE_NS, [".", ""]) == map[FEATURE_NS := "yes"]
  {
    var m: Pairs := map["" := "yes", "." := "no"];
    assert FEATURE_NS !in m by { assert |FEATURE_NS| > 1; }
    assert ["", "."][..1] == [""] && [".", ""][..1] == ["."];
    assert [""][..0] == [] && ["."][..0] == [];
    assert InOrder(m, FEATURE_NS, []) == map[];
    assert InOrder(m, FEATURE_NS, [""]) == map[FEATURE_NS := "yes"];
    assert InOrder(m, FEATURE_NS, ["."]) == map[FEATURE_NS := "no"];
  }

  // ----- What the result contains -----

  function FullName(auto: bool, ns: string, key: string): string {
    if auto then AddNs(key, ns) else key
  }

  /** The key is used: with default namespaces on, unless its full name is there too. */
  predicate Used(auto: bool, m: Pairs, ns: string, key: string) {
    key in m && (!auto || Kept(m, ns, key))
  }

  /** A plain key gets the namespace and a slash in front, unless that name is there too; a prefixed key stays. */
  lemma NamesSpelled(ns: string, key: string)
    ensures '/' in key ==> FullName(true, ns, key) == key
    ensures '/' !in key && key !in ["", ".", ".."] ==> FullName(true, ns, key) == ns + "/" + key
    ensures FullName(false, ns, key) == key
  {
  }

  lemma NamedContents(auto: bool, m: Pairs, ns: string, named: Pairs, f: string)
    requires Named(auto, m, ns, named)
    ensures f in named ==> exists key :: Used(auto, m, ns, key) && FullName(auto, ns, key) == f && m[key] == named[f]
    ensures forall key | Used(auto, m, ns, key) && FullName(auto, ns, key) == f :: f in named
  {
    hide InOrder;
    hide AddNs;
    hide JoinNs;
    if auto {
      var order :| Enumerates(order, m.Keys) && named == InOrder(m, ns, order);
      InOrderContents(m, ns, order, f);
      assert forall key :: key in order <==> key in Elems(order);
      if f in named {
        var key :| key in order && Kept(m, ns, key) && AddNs(key, ns) == f && m[key] == named[f];
        assert Used(auto, m, ns, key) && FullName(auto, ns, key) == f;
      }
    } else if f in named {
      assert Used(auto, m, ns, f) && FullName(auto, ns, f) == f && m[f] == named[f];
    }
  }

  /** Every used key is in the result under its full name, with its value unless that is ambiguous. */
  lemma NamedValue(auto: bool, m: Pairs, ns: string, named: Pairs, key: string)
    requires IsNs(ns) && Named(auto, m, ns, named) && Used(auto, m, ns, key) && (auto ==> !Ambiguous(m, ns))
    ensures FullName(auto, ns, key) in named && named[FullName(auto, ns, key)] == m[key]
  {
    hide Named;
    hide AddNs;
    hide JoinNs;
    var f := FullName(auto, ns, key);
    NamedContents(auto, m, ns, named, f);
    var other :| Used(auto, m, ns, other) && FullName(auto, ns, other) == f && m[other] == named[f];
    if auto {
      SameName(m, ns, key, other);
      if key != other {
        BareKept(m, ns, key);
      }
    }
  }

  lemma BareKept(m: Pairs, ns: string, key: string)
    requires Kept(m, ns, key) && key in ["", "."]
    ensures ns !in m
  {
  }
}
