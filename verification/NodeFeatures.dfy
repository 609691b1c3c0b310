/**
The NodeFeature objects of one node are sorted and merged into one spec
(pkg/nfd-master/nfd-master.go, nfdAPIUpdateOneNode; pkg/apis/nfd/v1alpha1/feature.go).
*/
module NodeFeatures {
  import opened Basics
  import opened Ordering
  import opened Names
  import opened Messages
  import opened Merge
  import opened DefaultNs

  datatype Id = Id(namespace: string, name: string)
  datatype Spec = Spec(features: Features, labels: map<string, string>)
  datatype NodeFeature = NodeFeature(id: Id, spec: Spec)

  // ----- Order -----

  /** The comparator of sort.Slice: NFD's own namespace first, then by name, then by namespace. */
  predicate Before(own: string, a: Id, b: Id) {
    if a.namespace == own && b.namespace != own then true
    else if a.namespace != own && b.namespace == own then false
    else if a.name != b.name then LessString(a.name, b.name)
    else LessString(a.namespace, b.namespace)
  }

  function Comparator(own: string): (Id, Id) -> bool {
    (a, b) => Before(own, a, b)
  }

  /** It orders any two different objects one way only. */
  lemma ComparatorTotal(own: string)
    ensures StrictTotal(Comparator(own))
  {
    hide LessString;
    StringOrder();
  }

  function Ids(objs: seq<NodeFeature>): (r: seq<Id>)
    ensures |r| == |objs| && forall i | 0 <= i < |r| :: r[i] == objs[i].id
  {
    seq(|objs|, i requires 0 <= i < |objs| => objs[i].id)
  }

  function Compare(own: string): (NodeFeature, NodeFeature) -> bool {
    (a: NodeFeature, b: NodeFeature) => Before(own, a.id, b.id)
  }

  lemma {:induction false} InsertIds(own: string, x: NodeFeature, s: seq<NodeFeature>)
    ensures Ids(Insert(Compare(own), x, s)) == Insert(Comparator(own), x.id, Ids(s))
  {
    hide Before;
    if s != [] {
      InsertIds(own, x, s[1..]);
      assert Ids(s)[1..] == Ids(s[1..]);
      IdsConcat([x], s);
      IdsConcat([s[0]], Insert(Compare(own), x, s[1..]));
    }
  }

  lemma IdsConcat(a: seq<NodeFeature>, b: seq<NodeFeature>)
    ensures Ids(a + b) == Ids(a) + Ids(b)
  {
  }

  /** The objects in ascending order. */
  ghost predicate SortedObjects(own: string, objs: seq<NodeFeature>, sorted: seq<NodeFeature>) {
    Sorted(Comparator(own), Ids(sorted)) && Elems(sorted) == Elems(objs)
  }

  method SortObjects(own: string, objs: seq<NodeFeature>) returns (sorted: seq<NodeFeature>)
    requires NoDuplicates(Ids(objs))
    ensures SortedObjects(own, objs, sorted)
  {
    hide Before;
    sorted := [];
    var i := 0;
    ComparatorTotal(own);
    while i < |objs|
      invariant 0 <= i <= |objs|
      invariant Sorted(Comparator(own), Ids(sorted)) && Elems(sorted) == Elems(objs[..i])
    {
      assert objs[i].id !in Ids(sorted) by {
        NotYet(objs, i, sorted);
      }
      InsertIds(own, objs[i], sorted);
      InsertSorted(Comparator(own), objs[i].id, Ids(sorted));
      InsertElems(Compare(own), objs[i], sorted);
      sorted := Insert(Compare(own), objs[i], sorted);
      assert Elems(objs[..i + 1]) == Elems(objs[..i]) + {objs[i]};
      i := i + 1;
    }
    assert objs[..|objs|] == objs;
  }

  lemma NotYet(objs: seq<NodeFeature>, i: nat, sorted: seq<NodeFeature>)
    requires NoDuplicates(Ids(objs)) && i < |objs| && Elems(sorted) == Elems(objs[..i])
    ensures objs[i].id !in Ids(sorted)
  {
    forall j | 0 <= j < |sorted| ensures sorted[j].id != objs[i].id {
      assert sorted[j] in Elems(sorted);
      assert sorted[j] in objs[..i];
      var k :| 0 <= k < i && objs[k] == sorted[j];
      assert Ids(objs)[k] != Ids(objs)[i];
    }
  }

  lemma {:induction false} IdsElems(objs: seq<NodeFeature>)
    ensures Elems(Ids(objs)) == set o | o in Elems(objs) :: o.id
  {
    forall id | id in Elems(Ids(objs)) ensures exists o | o in Elems(objs) :: o.id == id {
      var i :| 0 <= i < |objs| && Ids(objs)[i] == id;
      assert objs[i] in Elems(objs);
    }
    forall o | o in Elems(objs) ensures o.id in Elems(Ids(objs)) {
      var i :| 0 <= i < |objs| && objs[i] == o;
      assert Ids(objs)[i] == o.id;
    }
  }

  /** There is only one sorted list, whatever order the lister returned. */
  lemma OneOrder(own: string, a: seq<NodeFeature>, b: seq<NodeFeature>, x: seq<NodeFeature>, y: seq<NodeFeature>)
    requires NoDuplicates(Ids(a)) && Elems(a) == Elems(b)
    requires SortedObjects(own, a, x) && SortedObjects(own, b, y)
    ensures x == y
  {
    hide Before;
    ComparatorTotal(own);
    IdsElems(x);
    IdsElems(y);
    SortedUnique(Comparator(own), Ids(x), Ids(y));
    forall i | 0 <= i < |x| ensures x[i] == y[i] {
      assert x[i] in Elems(a) && y[i] in Elems(a);
      assert Ids(x)[i] == Ids(y)[i];
      SameObject(a, x[i], y[i]);
    }
  }

  lemma SameObject(a: seq<NodeFeature>, x: NodeFeature, y: NodeFeature)
    requires NoDuplicates(Ids(a)) && x in a && y in a && x.id == y.id
    ensures x == y
  {
    var i :| 0 <= i < |a| && a[i] == x;
    var j :| 0 <= j < |a| && a[j] == y;
    assert Ids(a)[i] == Ids(a)[j];
  }

  // ----- Merging -----

  const NO_SPEC := Spec(NO_FEATURES, map[])

  type Labels = map<string, string>

  /** The labels of each object, with default namespaces added if so configured. */
  ghost predicate Given(auto: bool, objs: seq<NodeFeature>, given: seq<Labels>) {
    |given| == |objs| && forall i | 0 <= i < |objs| :: Named(auto, objs[i].spec.labels, FEATURE_NS, given[i])
  }

  /** All objects merged in turn, with these labels. */
  ghost function Merged(objs: seq<NodeFeature>, given: seq<Labels>): Spec
    requires |given| == |objs|
  {
    if objs == [] then NO_SPEC
    else
      var n := |objs| - 1;
      var out := Merged(objs[..n], given[..n]);
      Spec(MergeFeatures(out.features, objs[n].spec.features), out.labels + given[n])
  }

  lemma NothingBelow<V>(src: map<Str, V>, zero: V, merge: (V, V) -> V)
    requires forall k | k in src :: merge(zero, src[k]) == src[k]
    ensures MergeSets(map[], src, zero, merge) == src
  {
  }

  lemma MergeIntoNothing(f: Features)
    ensures MergeFeatures(NO_FEATURES, f) == f
  {
    hide MergeSets;
    forall k | k in f.flags ensures MergeFlags(FlagFeatureSet(map[]), f.flags[k]) == f.flags[k] {
      assert map[] + f.flags[k].elements == f.flags[k].elements;
    }
    forall k | k in f.attributes
      ensures MergeAttributes(AttributeFeatureSet(map[]), f.attributes[k]) == f.attributes[k]
    {
      assert map[] + f.attributes[k].elements == f.attributes[k].elements;
    }
    forall k | k in f.instances ensures MergeInstances(InstanceFeatureSet([]), f.instances[k]) == f.instances[k] {
      assert [] + f.instances[k].elements == f.instances[k].elements;
    }
    NothingBelow(f.flags, FlagFeatureSet(map[]), MergeFlags);
    NothingBelow(f.attributes, AttributeFeatureSet(map[]), MergeAttributes);
    NothingBelow(f.instances, InstanceFeatureSet([]), MergeInstances);
  }

  /** The merge of nfdAPIUpdateOneNode: sorted, the first copied and the others merged into it in turn. */
  method MergeObjects(own: string, auto: bool, objs: seq<NodeFeature>)
    returns (spec: Spec, ghost sorted: seq<NodeFeature>, ghost given: seq<Labels>)
    requires NoDuplicates(Ids(objs))
    ensures SortedObjects(own, objs, sorted)
    ensures Given(auto, sorted, given) && spec == Merged(sorted, given)
  {
    hide MergeFeatures;
    hide Named;
    hide SortedObjects;
    hide Merged;
    hide Given;
    var list := SortObjects(own, objs);
    sorted, given := list, [];
    spec := NO_SPEC;
    if |list| == 0 {
      MergedNone(auto);
    } else {
      var labels := WithDefaultNs(auto, list[0].spec.labels, FEATURE_NS);
      spec := Spec(list[0].spec.features, labels);
      given := [labels];
      MergedOne(auto, list, labels);
      var i := 1;
      while i < |list|
        invariant 1 <= i == |given| <= |list| && Given(auto, list[..i], given)
        invariant spec == Merged(list[..i], given)
      {
        var s := list[i].spec;
        var more := WithDefaultNs(auto, s.labels, FEATURE_NS);
        var features := MergeFeaturesInto(spec.features, s.features);
        MergedStep(auto, list, i, given, more);
        spec := Spec(features, spec.labels + more);
        given := given + [more];
        i := i + 1;
      }
      assert list[..|list|] == list;
    }
  }

  lemma MergedNone(auto: bool)
    ensures Given(auto, [], []) && Merged([], []) == NO_SPEC
  {
  }

  lemma MergedOne(auto: bool, list: seq<NodeFeature>, labels: Labels)
    requires list != [] && Named(auto, list[0].spec.labels, FEATURE_NS, labels)
    ensures Given(auto, list[..1], [labels])
    ensures Merged(list[..1], [labels]) == Spec(list[0].spec.features, labels)
  {
    hide Named;
    assert list[..1][..0] == [] && [labels][..0] == [];
    MergeIntoNothing(list[0].spec.features);
    assert map[] + labels == labels;
  }

  lemma MergedStep(auto: bool, list: seq<NodeFeature>, i: nat, given: seq<Labels>, more: Labels)
    requires i < |list| && |given| == i && Given(auto, list[..i], given)
    requires Named(auto, list[i].spec.labels, FEATURE_NS, more)
    ensures Given(auto, list[..i + 1], given + [more])
    ensures var out := Merged(list[..i], given);
      Merged(list[..i + 1], given + [more])
      == Spec(MergeFeatures(out.features, list[i].spec.features), out.labels + more)
  {
    hide Named;
    hide MergeFeatures;
    hide Merged;
    assert list[..i + 1] == list[..i] + [list[i]];
    MergedMore(list[..i], list[i], given, more);
  }

  lemma MergedMore(objs: seq<NodeFeature>, o: NodeFeature, given: seq<Labels>, more: Labels)
    requires |given| == |objs|
    ensures var out := Merged(objs, given);
      Merged(objs + [o], given + [more]) == Spec(MergeFeatures(out.features, o.spec.features), out.labels + more)
  {
    hide MergeFeatures;
    assert (objs + [o])[..|objs|] == objs && (given + [more])[..|objs|] == given;
  }

  // ----- On what the result depends -----

  /** An object's labels leave the value of the bare namespace open, and no later object settles it. */
  ghost predicate Open(auto: bool, objs: seq<NodeFeature>) {
    auto && exists i :: OpenAt(objs, i)
  }

  ghost predicate OpenAt(objs: seq<NodeFeature>, i: int) {
    && 0 <= i < |objs| && Ambiguous(objs[i].spec.labels, FEATURE_NS)
    && forall j | i < j < |objs| :: !HasBare(objs[j].spec.labels, FEATURE_NS)
  }

  lemma OpenStep(auto: bool, objs: seq<NodeFeature>)
    requires objs != [] && !Open(auto, objs)
    ensures var init, last := objs[..|objs| - 1], objs[|objs| - 1].spec.labels;
      && (!auto || !Ambiguous(last, FEATURE_NS))
      && (!HasBare(last, FEATURE_NS) ==> !Open(auto, init))
  {
    hide Ambiguous;
    hide HasBare;
    var n := |objs| - 1;
    var init := objs[..n];
    if auto {
      assert !OpenAt(objs, n);
      forall i ensures !HasBare(objs[n].spec.labels, FEATURE_NS) && OpenAt(init, i) ==> OpenAt(objs, i) {
      }
    }
  }

  /** Two merges of the same objects have the same features, and the same labels but for the bare namespace. */
  lemma {:induction false} MergedTwice(auto: bool, objs: seq<NodeFeature>, a: seq<Labels>, b: seq<Labels>)
    requires Given(auto, objs, a) && Given(auto, objs, b)
    ensures var x, y := Merged(objs, a), Merged(objs, b);
      && x.features == y.features && x.labels.Keys == y.labels.Keys
      && (forall k | k in x.labels && k != FEATURE_NS :: x.labels[k] == y.labels[k])
      && (!Open(auto, objs) ==> x == y)
    decreases objs
  {
    hide MergeFeatures;
    hide Named;
    hide Ambiguous;
    hide HasBare;
    hide Open;
    hide Merged;
    if objs == [] {
      MergedNone(auto);
      assert a == [] && b == [];
    } else {
      var n := |objs| - 1;
      var last := objs[n].spec.labels;
      assert objs == objs[..n] + [objs[n]] && a == a[..n] + [a[n]] && b == b[..n] + [b[n]];
      MergedMore(objs[..n], objs[n], a[..n], a[n]);
      MergedMore(objs[..n], objs[n], b[..n], b[n]);
      MergedTwice(auto, objs[..n], a[..n], b[..n]);
      IsFeatureNs();
      NamedTwice(auto, last, FEATURE_NS, a[n], b[n]);
      if !Open(auto, objs) {
        OpenStep(auto, objs);
        if auto && !HasBare(last, FEATURE_NS) {
          assert Merged(objs[..n], a[..n]) == Merged(objs[..n], b[..n]);
        } else if !auto {
          NotOpen(objs[..n]);
        }
        assert Merged(objs, a).labels == Merged(objs, b).labels;
      }
    }
  }

  lemma NotOpen(objs: seq<NodeFeature>)
    ensures !Open(false, objs)
  {
  }

  lemma IsFeatureNs()
    ensures IsNs(FEATURE_NS)
  {
    assert |FEATURE_NS| == 26;
    assert forall i | 0 <= i < |FEATURE_NS| :: FEATURE_NS[i] != '/';
  }

  /** The merged spec is the same for every order in which the lister returns the objects, and for every map order. */
  lemma ListerOrderIrrelevant(own: string, auto: bool, a: seq<NodeFeature>, b: seq<NodeFeature>,
                              x: seq<NodeFeature>, y: seq<NodeFeature>, gx: seq<Labels>, gy: seq<Labels>)
    requires NoDuplicates(Ids(a)) && Elems(a) == Elems(b)
    requires SortedObjects(own, a, x) && SortedObjects(own, b, y) && Given(auto, x, gx) && Given(auto, y, gy)
    ensures x == y
    ensures !Open(auto, x) ==> Merged(x, gx) == Merged(y, gy)
  {
    hide Given;
    hide SortedObjects;
    hide Open;
    OneOrder(own, a, b, x, y);
    MergedTwice(auto, x, gx, gy);
  }

  /** The result depends on the map order if and only if the bare namespace is left open. */
  lemma MapOrderMattersExactly(auto: bool, objs: seq<NodeFeature>)
    ensures Open(auto, objs) <==>
      exists a, b :: Given(auto, objs, a) && Given(auto, objs, b) && Merged(objs, a) != Merged(objs, b)
  {
    hide Named;
    hide Open;
    if Open(auto, objs) {
      var a, b := TwoResults(auto, objs);
    } else {
      forall a, b | Given(auto, objs, a) && Given(auto, objs, b) ensures Merged(objs, a) == Merged(objs, b) {
        MergedTwice(auto, objs, a, b);
      }
    }
  }

  lemma {:induction false} SomeGiven(auto: bool, objs: seq<NodeFeature>) returns (given: seq<Labels>)
    ensures Given(auto, objs, given)
    decreases objs
  {
    hide Named;
    given := [];
    if objs != [] {
      var n := |objs| - 1;
      var init := SomeGiven(auto, objs[..n]);
      var last := SomeResult(auto, objs[n].spec.labels, FEATURE_NS);
      given := init + [last];
    }
  }

  lemma TwoResults(auto: bool, objs: seq<NodeFeature>) returns (a: seq<Labels>, b: seq<Labels>)
    requires Open(auto, objs)
    ensures Given(auto, objs, a) && Given(auto, objs, b) && Merged(objs, a) != Merged(objs, b)
  {
    hide Named;
    hide HasBare;
    hide Merged;
    var i :| OpenAt(objs, i);
    var m := objs[i].spec.labels;
    var given := SomeGiven(auto, objs);
    var x := EitherValue(m, FEATURE_NS, "");
    var y := EitherValue(m, FEATURE_NS, ".");
    a, b := given[i := x], given[i := y];
    IsFeatureNs();
    forall j | i < j < |objs| ensures FEATURE_NS !in given[j] {
      NamedTwice(auto, objs[j].spec.labels, FEATURE_NS, given[j], given[j]);
    }
    LabelOfLast(objs, a, FEATURE_NS, i);
    LabelOfLast(objs, b, FEATURE_NS, i);
  }

  // ----- Who wins -----

  /** A merged label has the value that the last object with it gives; any object with it makes it appear. */
  lemma {:induction false} LabelOfLast(objs: seq<NodeFeature>, given: seq<Labels>, k: string, i: nat)
    requires |given| == |objs| && i < |objs| && k in given[i] && forall j | i < j < |objs| :: k !in given[j]
    ensures k in Merged(objs, given).labels && Merged(objs, given).labels[k] == given[i][k]
    decreases objs
  {
    hide MergeFeatures;
    var n := |objs| - 1;
    if i < n {
      LabelOfLast(objs[..n], given[..n], k, i);
    }
  }

  ghost predicate HasAttribute(f: Features, fs: Str, k: Str) {
    fs in f.attributes && k in f.attributes[fs].elements
  }

  /** Likewise for an attribute of a feature set. */
  lemma {:induction false} AttributeOfLast(objs: seq<NodeFeature>, given: seq<Labels>, fs: Str, k: Str, i: nat)
    requires |given| == |objs| && i < |objs| && HasAttribute(objs[i].spec.features, fs, k)
    requires forall j | i < j < |objs| :: !HasAttribute(objs[j].spec.features, fs, k)
    ensures HasAttribute(Merged(objs, given).features, fs, k)
    ensures Merged(objs, given).features.attributes[fs].elements[k] == objs[i].spec.features.attributes[fs].elements[k]
    decreases objs
  {
    var n := |objs| - 1;
    if i < n {
      AttributeOfLast(objs[..n], given[..n], fs, k, i);
    }
  }

  function InstancesOf(f: Features, fs: Str): seq<InstanceFeature> {
    if fs in f.instances then f.instances[fs].elements else []
  }

  ghost function AllInstances(objs: seq<NodeFeature>, fs: Str): seq<InstanceFeature> {
    if objs == [] then [] else AllInstances(objs[..|objs| - 1], fs) + InstancesOf(objs[|objs| - 1].spec.features, fs)
  }

  /** Instances of all objects are kept, in the order of the objects. */
  lemma {:induction false} InstancesKept(objs: seq<NodeFeature>, given: seq<Labels>, fs: Str)
    requires |given| == |objs|
    ensures InstancesOf(Merged(objs, given).features, fs) == AllInstances(objs, fs)
    decreases objs
  {
    if objs != [] {
      InstancesKept(objs[..|objs| - 1], given[..|objs| - 1], fs);
    }
  }

  // ----- Who wins, by identity -----

  /** Outside NFD's own namespace over inside it, else the greater name, else the greater namespace. */
  predicate Beats(own: string, a: Id, b: Id) {
    || (a.namespace != own && b.namespace == own)
    || ((a.namespace == own <==> b.namespace == own)
        && (LessString(b.name, a.name) || (a.name == b.name && LessString(b.namespace, a.namespace))))
  }

  /** An object comes after exactly those that it beats. */
  lemma PlaceByIdentity(own: string, objs: seq<NodeFeature>, sorted: seq<NodeFeature>, i: nat, j: nat)
    requires SortedObjects(own, objs, sorted) && i < |sorted| && j < |sorted|
    ensures i < j <==> Beats(own, sorted[j].id, sorted[i].id)
  {
    hide LessString;
    StringOrder();
    var ids := Ids(sorted);
    if i < j {
      assert Comparator(own)(ids[i], ids[j]);
    } else if j < i {
      assert Comparator(own)(ids[j], ids[i]);
    }
  }

  /** A contested label takes the value of the object that beats all others with that label. */
  lemma LabelOfWinner(own: string, objs: seq<NodeFeature>, sorted: seq<NodeFeature>, given: seq<Labels>, k: string,
                      i: nat)
    requires SortedObjects(own, objs, sorted) && |given| == |sorted| && i < |sorted| && k in given[i]
    requires forall j | 0 <= j < |sorted| && j != i && k in given[j] :: Beats(own, sorted[i].id, sorted[j].id)
    ensures k in Merged(sorted, given).labels && Merged(sorted, given).labels[k] == given[i][k]
  {
    hide Beats;
    hide SortedObjects;
    hide Merged;
    forall j | i < j < |sorted| ensures k !in given[j] {
      PlaceByIdentity(own, objs, sorted, i, j);
      PlaceByIdentity(own, objs, sorted, j, i);
    }
    LabelOfLast(sorted, given, k, i);
  }

  /** The same for an attribute. */
  lemma AttributeOfWinner(own: string, objs: seq<NodeFeature>, sorted: seq<NodeFeature>, given: seq<Labels>,
                          fs: Str, k: Str, i: nat)
    requires SortedObjects(own, objs, sorted) && |given| == |sorted| && i < |sorted|
    requires HasAttribute(sorted[i].spec.features, fs, k)
    requires forall j | 0 <= j < |sorted| && j != i && HasAttribute(sorted[j].spec.features, fs, k) ::
      Beats(own, sorted[i].id, sorted[j].id)
    ensures HasAttribute(Merged(sorted, given).features, fs, k)
    ensures Merged(sorted, given).features.attributes[fs].elements[k]
         == sorted[i].spec.features.attributes[fs].elements[k]
  {
    hide Beats;
    hide SortedObjects;
    hide Merged;
    forall j | i < j < |sorted| ensures !HasAttribute(sorted[j].spec.features, fs, k) {
      PlaceByIdentity(own, objs, sorted, i, j);
      PlaceByIdentity(own, objs, sorted, j, i);
    }
    AttributeOfLast(sorted, given, fs, k, i);
  }
}
