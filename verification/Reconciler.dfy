/**
updateNodeObject of nfd-master: the node's labels, annotations and extended
resources are brought in line with the desired ones, and the names that
nfd-master owns are recorded in annotations of the node itself.
*/
module Reconciler {
  import opened Basics
  import opened Names
  import opened OwnAnnotations
  import opened Patches
  import opened NodeApi
  import opened Ordering

  /** What an update is asked to bring about. */
  datatype Desired = Desired(labels: Items, annotations: Items, resources: Items)

  /** The key sets recorded in the three tracking annotations. */
  datatype Owned = Owned(labels: set<string>, annotations: set<string>, resources: set<string>)

  /** resource.Quantity: AsInt64 of a parsed value, and strconv.FormatInt. */
  datatype Quantities = Quantities(asInt: string -> int, format: int -> string)

  /** Which API calls of an update fail. */
  datatype Faults = Faults(get: bool, status: bool, patch: bool)

  datatype Outcome = GetFailed | StatusFailed | PatchFailed | Updated

  ghost predicate ValidDesired(d: Desired) {
    && (forall k | k in d.labels :: LabelKey(k))
    && (forall k | k in d.annotations :: FeatureKey(k))
    && (forall k | k in d.resources :: FeatureKey(k) && d.resources[k] != "")
  }

  ghost predicate ValidOwned(o: Owned) {
    && (forall k | k in o.labels :: TrackableKey(k))
    && (forall k | k in o.annotations :: FeatureKey(k))
    && (forall k | k in o.resources :: TrackableKey(k))
  }

  function Lookup(m: Items, k: string): string {
    if k in m then m[k] else ""
  }

  /** The tracking annotations of the node name exactly the owned keys. */
  ghost predicate Records(instance: string, n: Node, o: Owned) {
    && Lookup(n.annotations, Own(instance, FEATURE_LABELS)) == Track(o.labels)
    && Lookup(n.annotations, Own(instance, FEATURE_ANNOTATIONS)) == Track(o.annotations)
    && Lookup(n.annotations, Own(instance, EXTENDED_RESOURCES)) == Track(o.resources)
  }

  // ----- What an update writes -----

  ghost function TrackingEntry(key: string, names: set<string>): Items {
    if names == {} then map[] else map[key := Track(names)]
  }

  /** The annotations to have on the node: the feature annotations and the records. */
  ghost function Wanted(instance: string, d: Desired): Items {
    TrackingEntry(Own(instance, FEATURE_LABELS), d.labels.Keys)
    + TrackingEntry(Own(instance, EXTENDED_RESOURCES), d.resources.Keys)
    + TrackingEntry(Own(instance, FEATURE_ANNOTATIONS), d.annotations.Keys)
    + d.annotations
  }

  ghost function AnnotationsToDrop(instance: string, o: Owned): set<string> {
    o.annotations + Elems(OwnNames(instance))
  }

  /** Labels and annotations after the node patch. */
  ghost function Reconciled(instance: string, n: Node, o: Owned, d: Desired): Node {
    n.(labels := n.labels - o.labels + d.labels,
       annotations := n.annotations - AnnotationsToDrop(instance, o) + Wanted(instance, d))
  }

  /** Something is to be removed or written. */
  ghost predicate Differs(drop: set<string>, have: Items, want: Items) {
    !(drop * have.Keys <= want.Keys) || Changed(have, want) != {}
  }

  ghost predicate NodePatchNeeded(instance: string, n: Node, o: Owned, d: Desired) {
    || Differs(o.labels, n.labels, d.labels)
    || Differs(AnnotationsToDrop(instance, o), n.annotations, Wanted(instance, d))
  }

  /** No write of an empty value, for which the patch would lack its value member. */
  ghost predicate NodePatchAcceptable(instance: string, n: Node, d: Desired) {
    && (forall k | k in Changed(n.labels, d.labels) :: d.labels[k] != "")
    && (forall k | k in Changed(n.annotations, Wanted(instance, d)) :: Wanted(instance, d)[k] != "")
  }

  /** Extended resources that are missing or whose integer value is written differently. */
  function Stale(q: Quantities, capacity: Items, resources: Items): set<string> {
    set k | k in resources && (k !in capacity || q.format(q.asInt(capacity[k])) != resources[k])
  }

  ghost predicate StatusPatchNeeded(q: Quantities, n: Node, o: Owned, d: Desired) {
    !(o.resources * n.capacity.Keys <= d.resources.Keys) || Stale(q, n.capacity, d.resources) != {}
  }

  /** Capacity and allocatable after the status patch. */
  ghost function Resourced(q: Quantities, n: Node, o: Owned, d: Desired): Node {
    var gone := o.resources * n.capacity.Keys - d.resources.Keys;
    var stale := Stale(q, n.capacity, d.resources);
    var capacity := n.capacity - gone + Pick(d.resources, stale);
    var allocatable := n.allocatable - gone + Pick(d.resources, stale * n.capacity.Keys);
    n.(capacity := capacity, allocatable := capacity + allocatable)
  }

  /** Every resource with a capacity is also allocatable. */
  predicate StatusConsistent(n: Node) {
    n.capacity.Keys <= n.allocatable.Keys
  }

  /** One update: first the status patch, then labels and annotations together. */
  ghost function UpdateSpec(q: Quantities, instance: string, n: Node, o: Owned, d: Desired, f: Faults)
    : (Node, Outcome)
  {
    if f.get then (n, GetFailed)
    else if StatusPatchNeeded(q, n, o, d) && f.status then (n, StatusFailed)
    else
      var n1 := if StatusPatchNeeded(q, n, o, d) then Resourced(q, n, o, d) else n;
      if NodePatchNeeded(instance, n, o, d) && (f.patch || !NodePatchAcceptable(instance, n, d)) then (n1, PatchFailed)
      else (Reconciled(instance, n1, o, d), Updated)
  }

  // ----- The two patch lists -----

  /** Removal and rewriting touch capacity and allocatable, adding only capacity. */
  function RemovePairs(keys: seq<string>): seq<Change> {
    if keys == [] then []
    else
      var op := Op(Remove, keys[0], "");
      [Change(Capacity, op), Change(Allocatable, op)] + RemovePairs(keys[1..])
  }

  function WritePair(k: string, capacity: Items, resources: Items): seq<Change>
    requires k in resources
  {
    var op := Upsert(k, capacity, resources);
    if k in capacity then [Change(Capacity, op), Change(Allocatable, op)] else [Change(Capacity, op)]
  }

  function WritePairs(keys: seq<string>, capacity: Items, resources: Items): seq<Change>
    requires Elems(keys) <= resources.Keys
  {
    if keys == [] then []
    else
      assert keys[0] in Elems(keys);
      assert Elems(keys[1..]) <= Elems(keys);
      WritePair(keys[0], capacity, resources) + WritePairs(keys[1..], capacity, resources)
  }

  method CreateExtendedResourcePatches(q: Quantities, tracked: seq<string>, capacity: Items, resources: Items)
    returns (patches: seq<Change>, ghost order: seq<string>)
    ensures Enumerates(order, Stale(q, capacity, resources))
    ensures Elems(order) <= resources.Keys
    ensures patches == RemovePairs(ToRemove(tracked, capacity, resources)) + WritePairs(order, capacity, resources)
  {
    hide RemovePairs;
    hide WritePairs;
    hide ToRemove;
    hide Stale;
    patches := ResourcesToRemove(tracked, capacity, resources);
    var writes;
    writes, order := ResourcesToWrite(q, capacity, resources);
    patches := patches + writes;
  }

  lemma RemovePairsStep(tracked: seq<string>, i: nat, capacity: Items, resources: Items)
    requires i < |tracked|
    ensures var key := tracked[i];
      RemovePairs(ToRemove(tracked[i..], capacity, resources))
      == (if key in capacity && key !in resources
          then [Change(Capacity, Op(Remove, key, "")), Change(Allocatable, Op(Remove, key, ""))] else [])
         + RemovePairs(ToRemove(tracked[i + 1..], capacity, resources))
  {
    var key, rest := tracked[i], ToRemove(tracked[i + 1..], capacity, resources);
    assert tracked[i..][0] == key && tracked[i..][1..] == tracked[i + 1..];
    assert ([key] + rest)[1..] == rest && [] + rest == rest;
    assert [] + RemovePairs(rest) == RemovePairs(rest);
  }

  lemma NoPairs(capacity: Items, resources: Items)
    ensures RemovePairs(ToRemove([], capacity, resources)) == []
  {
  }

  method ResourcesToRemove(tracked: seq<string>, capacity: Items, resources: Items) returns (patches: seq<Change>)
    ensures patches == RemovePairs(ToRemove(tracked, capacity, resources))
  {
    hide RemovePairs;
    hide ToRemove;
    patches := [];
    var i := 0;
    assert tracked[0..] == tracked;
    while i < |tracked|
      invariant 0 <= i <= |tracked|
      invariant patches + RemovePairs(ToRemove(tracked[i..], capacity, resources))
             == RemovePairs(ToRemove(tracked, capacity, resources))
    {
      var key := tracked[i];
      RemovePairsStep(tracked, i, capacity, resources);
      if key in capacity && key !in resources {
        patches := patches + [Change(Capacity, Op(Remove, key, "")), Change(Allocatable, Op(Remove, key, ""))];
      }
      i := i + 1;
    }
    assert tracked[|tracked|..] == [];
    NoPairs(capacity, resources);
  }

  method ResourcesToWrite(q: Quantities, capacity: Items, resources: Items)
    returns (patches: seq<Change>, ghost order: seq<string>)
    ensures Enumerates(order, Stale(q, capacity, resources))
    ensures Elems(order) <= resources.Keys && patches == WritePairs(order, capacity, resources)
  {
    patches := [];
    order := [];
    var todo := resources.Keys;
    while todo != {}
      invariant todo <= resources.Keys
      invariant NoDuplicates(order)
      invariant Elems(order) == Stale(q, capacity, resources) - todo
      invariant patches == WritePairs(order, capacity, resources)
      decreases todo
    {
      var key :| key in todo;
      if key !in capacity || q.format(q.asInt(capacity[key])) != resources[key] {
        WritePairsAppend(order, key, capacity, resources);
        patches := patches + WritePair(key, capacity, resources);
        assert key !in order by { assert key in order ==> key in Elems(order); }
        assert Elems(order + [key]) == Elems(order) + {key};
        order := order + [key];
      }
      todo := todo - {key};
    }
  }

  lemma {:induction false} WritePairsAppend(keys: seq<string>, k: string, capacity: Items, resources: Items)
    requires Elems(keys) <= resources.Keys && k in resources
    ensures Elems(keys + [k]) <= resources.Keys
    ensures WritePairs(keys + [k], capacity, resources)
         == WritePairs(keys, capacity, resources) + WritePair(k, capacity, resources)
    decreases keys
  {
    hide WritePair;
    if keys == [] {
      assert keys + [k] == [k];
      assert WritePairs([k], capacity, resources) == WritePair(k, capacity, resources) + [];
    } else {
      assert keys[0] in Elems(keys);
      assert Elems(keys[1..]) <= Elems(keys);
      WritePairsAppend(keys[1..], k, capacity, resources);
      assert (keys + [k])[1..] == keys[1..] + [k];
    }
  }

  function Within(keys: seq<string>, m: Items): seq<string> {
    if keys == [] then [] else (if keys[0] in m then [keys[0]] else []) + Within(keys[1..], m)
  }

  lemma {:induction false} WithinElems(keys: seq<string>, m: Items)
    ensures Elems(Within(keys, m)) == Elems(keys) * m.Keys
  {
    if keys != [] {
      WithinElems(keys[1..], m);
      var head := if keys[0] in m then [keys[0]] else [];
      assert Elems(keys) == {keys[0]} + Elems(keys[1..]);
      assert Elems(head + Within(keys[1..], m)) == Elems(head) + Elems(Within(keys[1..], m));
    }
  }

  lemma RemovalsCons(keys: seq<string>)
    ensures RemovePairs([]) == [] && Removes([]) == []
    ensures keys != [] ==>
      var op := Op(Remove, keys[0], "");
      && RemovePairs(keys) == [Change(Capacity, op), Change(Allocatable, op)] + RemovePairs(keys[1..])
      && Removes(keys) == [op] + Removes(keys[1..])
  {
  }

  lemma {:induction false} RemovePairsOps(keys: seq<string>, sec: Section)
    ensures OpsOn(RemovePairs(keys), sec) == if sec in {Capacity, Allocatable} then Removes(keys) else []
    decreases keys
  {
    hide OpsOn;
    hide RemovePairs;
    hide Removes;
    RemovalsCons(keys);
    if keys == [] {
      OpsOnNone(sec);
    } else {
      var op := Op(Remove, keys[0], "");
      RemovePairsOps(keys[1..], sec);
      OpsOnConcat([Change(Capacity, op), Change(Allocatable, op)], RemovePairs(keys[1..]), sec);
      PairOps(Capacity, Allocatable, op, sec);
    }
  }

  lemma OpsOnNone(sec: Section)
    ensures OpsOn([], sec) == []
  {
  }

  lemma PairOps(a: Section, b: Section, op: Op, sec: Section)
    requires a != b
    ensures OpsOn([Change(a, op), Change(b, op)], sec) == if sec in {a, b} then [op] else []
    ensures OpsOn([Change(a, op)], sec) == if sec == a then [op] else []
  {
    var first, second := [Change(a, op)], [Change(b, op)];
    assert first[1..] == [] && second[1..] == [];
    assert OpsOn(first, sec) == if sec == a then [op] else [];
    assert OpsOn(second, sec) == if sec == b then [op] else [];
    OpsOnConcat(first, second, sec);
    assert first + second == [Change(a, op), Change(b, op)];
  }

  lemma {:induction false} WritePairsOps(keys: seq<string>, capacity: Items, resources: Items, sec: Section)
    requires Elems(keys) <= resources.Keys
    ensures Elems(Within(keys, capacity)) <= resources.Keys
    ensures OpsOn(WritePairs(keys, capacity, resources), sec)
         == match sec
            case Capacity => Upserts(keys, capacity, resources)
            case Allocatable => Upserts(Within(keys, capacity), capacity, resources)
            case _ => []
    decreases keys
  {
    hide Upsert;
    hide OpsOn;
    hide WritePairs;
    hide Upserts;
    hide Within;
    WithinElems(keys, capacity);
    WritesCons(keys, capacity, resources);
    if keys == [] {
      OpsOnNone(sec);
    } else {
      var k := keys[0];
      WithinElems(keys[1..], capacity);
      WritePairsOps(keys[1..], capacity, resources, sec);
      OpsOnConcat(WritePair(k, capacity, resources), WritePairs(keys[1..], capacity, resources), sec);
      PairOps(Capacity, Allocatable, Upsert(k, capacity, resources), sec);
    }
  }

  /** The writes of the first key and of the others, before and after they are split by section. */
  lemma WritesCons(keys: seq<string>, capacity: Items, resources: Items)
    requires Elems(keys) <= resources.Keys
    ensures keys == [] ==> WritePairs(keys, capacity, resources) == [] && Within(keys, capacity) == []
    ensures keys == [] ==> Upserts(keys, capacity, resources) == []
    ensures keys != [] ==> keys[0] in resources && Elems(keys[1..]) <= resources.Keys
    ensures keys != [] ==>
      && WritePairs(keys, capacity, resources)
         == WritePair(keys[0], capacity, resources) + WritePairs(keys[1..], capacity, resources)
      && Upserts(keys, capacity, resources)
         == [Upsert(keys[0], capacity, resources)] + Upserts(keys[1..], capacity, resources)
    ensures keys != [] && Elems(Within(keys[1..], capacity)) <= resources.Keys ==>
      && Elems(Within(keys, capacity)) <= resources.Keys
      && Upserts(Within(keys, capacity), capacity, resources)
         == (if keys[0] in capacity then [Upsert(keys[0], capacity, resources)] else [])
            + Upserts(Within(keys[1..], capacity), capacity, resources)
  {
    hide Upsert;
    hide WritePair;
    if keys != [] {
      assert keys[0] in Elems(keys) && Elems(keys[1..]) <= Elems(keys);
      WithinElems(keys, capacity);
      var rest := Within(keys[1..], capacity);
      if keys[0] in capacity {
        assert Within(keys, capacity) == [keys[0]] + rest && ([keys[0]] + rest)[1..] == rest;
      } else {
        assert Within(keys, capacity) == [] + rest == rest;
      }
    }
  }

  // ----- What the lists do at the server -----

  lemma {:induction false} ToRemoveDistinct(keys: seq<string>, have: Items, want: Items)
    requires NoDuplicates(keys)
    ensures NoDuplicates(ToRemove(keys, have, want))
    decreases keys
  {
    if keys != [] {
      var rest := keys[1..];
      assert NoDuplicates(rest) by {
        forall i, j | 0 <= i < j < |rest| ensures rest[i] != rest[j] {
          assert keys[i + 1] == rest[i] && keys[j + 1] == rest[j];
        }
      }
      ToRemoveDistinct(rest, have, want);
      ToRemoveElems(rest, have, want);
      var tail := ToRemove(rest, have, want);
      forall i | 0 <= i < |tail| ensures tail[i] != keys[0] {
        assert tail[i] in Elems(tail);
        var j :| 0 <= j < |rest| && rest[j] == tail[i];
        assert keys[j + 1] == rest[j];
      }
    }
  }

  ghost predicate AllTrackable(cs: seq<Change>) {
    forall c | c in cs :: TrackableKey(c.op.key)
  }

  lemma {:induction false} RemovePairsKeys(keys: seq<string>)
    requires forall k | k in keys :: TrackableKey(k)
    ensures AllTrackable(RemovePairs(keys))
  {
    hide TrackableKey;
    if keys != [] {
      assert keys[0] in keys;
      RemovePairsKeys(keys[1..]);
    }
  }

  lemma {:induction false} WritePairsKeys(keys: seq<string>, capacity: Items, resources: Items)
    requires Elems(keys) <= resources.Keys
    requires forall k | k in keys :: TrackableKey(k)
    ensures AllTrackable(WritePairs(keys, capacity, resources))
  {
    hide TrackableKey;
    if keys != [] {
      assert keys[0] in Elems(keys);
      assert Elems(keys[1..]) <= Elems(keys);
      WritePairsKeys(keys[1..], capacity, resources);
    }
  }

  lemma ResourceOpsApply(m: Items, gone: seq<string>, keys: seq<string>, capacity: Items, resources: Items)
    requires NoDuplicates(gone) && Elems(gone) <= capacity.Keys <= m.Keys && Elems(gone) !! resources.Keys
    requires Elems(keys) <= resources.Keys
    requires forall k | k in resources :: resources[k] != ""
    ensures ApplyOps(m, Removes(gone) + Upserts(keys, capacity, resources))
         == Some(m - Elems(gone) + Pick(resources, Elems(keys)))
  {
    hide ApplyOps;
    hide Upserts;
    hide Pick;
    RemovesApply(m, gone);
    forall k | k in keys ensures k in resources {
      assert k in Elems(keys);
    }
    UpsertsApply(m - Elems(gone), keys, capacity, resources);
    ApplyConcat(m, Removes(gone), Upserts(keys, capacity, resources));
  }

  /** The status patch list is accepted and leaves the resources as specified. */
  lemma StatusListApplies(q: Quantities, n: Node, tracked: seq<string>, o: Owned, d: Desired, order: seq<string>)
    requires StatusConsistent(n) && ValidDesired(d)
    requires NoDuplicates(tracked) && Elems(tracked) == o.resources
    requires Enumerates(order, Stale(q, n.capacity, d.resources)) && Elems(order) <= d.resources.Keys
    ensures var gone := ToRemove(tracked, n.capacity, d.resources);
      var cs := RemovePairs(gone) + WritePairs(order, n.capacity, d.resources);
      && ApplyChanges(n, cs).Some? && Settle(ApplyChanges(n, cs).value, true) == Resourced(q, n, o, d)
  {
    hide ApplyChanges;
    hide ApplyOps;
    hide OpsOn;
    hide ToRemove;
    hide WritePairs;
    hide RemovePairs;
    hide Upserts;
    hide Stale;
    hide ValidDesired;
    hide Pick;
    var gone := ToRemove(tracked, n.capacity, d.resources);
    var cs := RemovePairs(gone) + WritePairs(order, n.capacity, d.resources);
    StatusSections(q, n, tracked, o, d, order);
    StatusOps(n, gone, order, d.resources);
    SectionWise(n, cs);
    assert Get(n, Capacity) == n.capacity && Get(n, Allocatable) == n.allocatable;
    assert Get(n, Labels) == n.labels && Get(n, Annotations) == n.annotations;
    assert forall sec :: ApplyOps(Get(n, sec), OpsOn(cs, sec)).Some?;
  }

  /** What the removals and writes make of capacity and allocatable. */
  lemma StatusSections(q: Quantities, n: Node, tracked: seq<string>, o: Owned, d: Desired, order: seq<string>)
    requires StatusConsistent(n) && ValidDesired(d)
    requires NoDuplicates(tracked) && Elems(tracked) == o.resources
    requires Enumerates(order, Stale(q, n.capacity, d.resources)) && Elems(order) <= d.resources.Keys
    ensures var keys := ToRemove(tracked, n.capacity, d.resources);
      var both := Within(order, n.capacity);
      var stale := Stale(q, n.capacity, d.resources);
      var gone := o.resources * n.capacity.Keys - d.resources.Keys;
      && NoDuplicates(keys) && Elems(both) <= d.resources.Keys
      && ApplyOps(n.capacity, Removes(keys) + Upserts(order, n.capacity, d.resources))
         == Some(n.capacity - gone + Pick(d.resources, stale))
      && ApplyOps(n.allocatable, Removes(keys) + Upserts(both, n.capacity, d.resources))
         == Some(n.allocatable - gone + Pick(d.resources, stale * n.capacity.Keys))
  {
    hide ApplyOps;
    hide ToRemove;
    hide Upserts;
    hide LabelKey;
    hide FeatureKey;
    hide Pick;
    var gone := ToRemove(tracked, n.capacity, d.resources);
    ToRemoveDistinct(tracked, n.capacity, d.resources);
    ToRemoveElems(tracked, n.capacity, d.resources);
    WithinElems(order, n.capacity);
    ResourceOpsApply(n.capacity, gone, order, n.capacity, d.resources);
    ResourceOpsApply(n.allocatable, gone, Within(order, n.capacity), n.capacity, d.resources);
  }

  lemma StatusOps(n: Node, gone: seq<string>, order: seq<string>, resources: Items)
    requires Elems(order) <= resources.Keys
    ensures Elems(Within(order, n.capacity)) <= resources.Keys
    ensures var cs := RemovePairs(gone) + WritePairs(order, n.capacity, resources);
      && OpsOn(cs, Capacity) == Removes(gone) + Upserts(order, n.capacity, resources)
      && OpsOn(cs, Allocatable) == Removes(gone) + Upserts(Within(order, n.capacity), n.capacity, resources)
      && ApplyOps(n.labels, OpsOn(cs, Labels)) == Some(n.labels)
      && ApplyOps(n.annotations, OpsOn(cs, Annotations)) == Some(n.annotations)
  {
    hide OpsOn;
    hide RemovePairs;
    hide WritePairs;
    hide Upserts;
    hide Removes;
    StatusOpsOn(n.capacity, gone, order, resources, Capacity);
    StatusOpsOn(n.capacity, gone, order, resources, Allocatable);
    StatusOpsOn(n.capacity, gone, order, resources, Labels);
    StatusOpsOn(n.capacity, gone, order, resources, Annotations);
  }

  lemma StatusOpsOn(capacity: Items, gone: seq<string>, order: seq<string>, resources: Items, sec: Section)
    requires Elems(order) <= resources.Keys
    ensures Elems(Within(order, capacity)) <= resources.Keys
    ensures OpsOn(RemovePairs(gone) + WritePairs(order, capacity, resources), sec)
         == match sec
            case Capacity => Removes(gone) + Upserts(order, capacity, resources)
            case Allocatable => Removes(gone) + Upserts(Within(order, capacity), capacity, resources)
            case _ => []
  {
    hide OpsOn;
    hide RemovePairs;
    hide WritePairs;
    hide Upserts;
    hide Removes;
    OpsOnConcat(RemovePairs(gone), WritePairs(order, capacity, resources), sec);
    RemovePairsOps(gone, sec);
    WritePairsOps(order, capacity, resources, sec);
  }

  lemma StatusListEmpty(q: Quantities, n: Node, tracked: seq<string>, o: Owned, d: Desired, order: seq<string>)
    requires Elems(tracked) == o.resources
    requires Enumerates(order, Stale(q, n.capacity, d.resources)) && Elems(order) <= d.resources.Keys
    ensures RemovePairs(ToRemove(tracked, n.capacity, d.resources)) + WritePairs(order, n.capacity, d.resources) == []
       <==> !StatusPatchNeeded(q, n, o, d)
  {
    var gone := ToRemove(tracked, n.capacity, d.resources);
    ToRemoveElems(tracked, n.capacity, d.resources);
    ElemsEmpty(gone);
    ElemsEmpty(order);
    if Elems(gone) == {} {
      forall x | x in o.resources * n.capacity.Keys ensures x in d.resources.Keys {
        assert x !in Elems(gone);
      }
    }
    assert RemovePairs(gone) == [] <==> gone == [];
    assert WritePairs(order, n.capacity, d.resources) == [] <==> order == [];
  }

  /** The list of label patches followed by annotation patches. */
  function NodeList(labelOps: seq<Op>, annotationOps: seq<Op>): seq<Change> {
    OnSection(Labels, labelOps) + OnSection(Annotations, annotationOps)
  }

  lemma NodeListOps(labelOps: seq<Op>, annotationOps: seq<Op>, sec: Section)
    ensures OpsOn(NodeList(labelOps, annotationOps), sec)
         == match sec case Labels => labelOps case Annotations => annotationOps case _ => []
  {
    OpsOnConcat(OnSection(Labels, labelOps), OnSection(Annotations, annotationOps), sec);
    OpsOnSection(Labels, labelOps, sec);
    OpsOnSection(Annotations, annotationOps, sec);
  }

  lemma NodeListApply(n: Node, labelOps: seq<Op>, annotationOps: seq<Op>)
    ensures var l, a := ApplyOps(n.labels, labelOps), ApplyOps(n.annotations, annotationOps);
      ApplyChanges(n, NodeList(labelOps, annotationOps))
      == if l.Some? && a.Some? then Some(n.(labels := l.value, annotations := a.value)) else None
  {
    hide NodeList;
    hide OpsOn;
    hide ApplyChanges;
    var cs := NodeList(labelOps, annotationOps);
    NodeListOps(labelOps, annotationOps, Labels);
    NodeListOps(labelOps, annotationOps, Annotations);
    NodeListOps(labelOps, annotationOps, Capacity);
    NodeListOps(labelOps, annotationOps, Allocatable);
    SectionWise(n, cs);
    assert ApplyOps(n.capacity, []) == Some(n.capacity) && ApplyOps(n.allocatable, []) == Some(n.allocatable);
    if ApplyOps(n.labels, labelOps).Some? && ApplyOps(n.annotations, annotationOps).Some? {
      forall sec ensures ApplyOps(Get(n, sec), OpsOn(cs, sec)).Some? {
        match sec case Labels => case Annotations => case Capacity => case Allocatable =>
      }
    }
  }

  /** The keys that createPatches is told to remove from the annotations. */
  function AnnotationRemovals(instance: string, n: Node): seq<string> {
    Untrack(Lookup(n.annotations, Own(instance, FEATURE_ANNOTATIONS))) + OwnNames(instance)
  }

  /** Tracked annotations and the five own names never collide. */
  lemma AnnotationRemovalsDistinct(instance: string, n: Node, o: Owned)
    requires ValidInstance(instance) && ValidOwned(o) && Records(instance, n, o)
    ensures NoDuplicates(AnnotationRemovals(instance, n))
    ensures Elems(AnnotationRemovals(instance, n)) == AnnotationsToDrop(instance, o)
    ensures forall k | k in AnnotationsToDrop(instance, o) :: TrackableKey(k)
  {
    hide Own;
    hide OwnNames;
    hide Track;
    hide Untrack;
    hide FeatureKey;
    hide TrackableKey;
    forall k | k in o.annotations ensures TrackableKey(k) { ValidatedKeysTrackable(k); }
    TrackingFaithful(o.annotations);
    OwnNamesDistinct(instance);
    var a := Untrack(Lookup(n.annotations, Own(instance, FEATURE_ANNOTATIONS)));
    var b := OwnNames(instance);
    assert Elems(a + b) == Elems(a) + Elems(b);
    forall i, j | 0 <= i < j < |a + b| ensures (a + b)[i] != (a + b)[j] {
      if i < |a| <= j {
        assert a[i] in Elems(a) && b[j - |a|] in b;
      }
    }
    forall k | k in AnnotationsToDrop(instance, o) ensures TrackableKey(k) {
      assert k in o.annotations || k in b;
    }
  }

  lemma LabelRemovalsDistinct(instance: string, n: Node, o: Owned)
    requires ValidOwned(o) && Records(instance, n, o)
    ensures var l := Untrack(Lookup(n.annotations, Own(instance, FEATURE_LABELS)));
      NoDuplicates(l) && Elems(l) == o.labels
    ensures var r := Untrack(Lookup(n.annotations, Own(instance, EXTENDED_RESOURCES)));
      NoDuplicates(r) && Elems(r) == o.resources
  {
    hide Own;
    hide Track;
    hide Untrack;
    hide TrackableKey;
    TrackingFaithful(o.labels);
    TrackingFaithful(o.resources);
  }

  /** The node patch list: accepted exactly when no empty value is to be written. */
  lemma NodeListApplies(instance: string, n: Node, n1: Node, o: Owned, d: Desired, lo: seq<string>, ao: seq<string>)
    requires ValidInstance(instance) && ValidOwned(o) && Records(instance, n, o)
    requires n1.labels == n.labels && n1.annotations == n.annotations
    requires Enumerates(lo, Changed(n.labels, d.labels))
    requires Enumerates(ao, Changed(n.annotations, Wanted(instance, d)))
    ensures var lr := Untrack(Lookup(n.annotations, Own(instance, FEATURE_LABELS)));
      var lp := PatchList(lr, n.labels, d.labels, lo);
      var ap := PatchList(AnnotationRemovals(instance, n), n.annotations, Wanted(instance, d), ao);
      && ApplyChanges(n1, NodeList(lp, ap))
         == (if NodePatchAcceptable(instance, n, d) then Some(Reconciled(instance, n1, o, d)) else None)
      && (NodeList(lp, ap) == [] <==> !NodePatchNeeded(instance, n, o, d))
  {
    hide ApplyChanges;
    hide NodeList;
    hide PatchList;
    hide Wanted;
    hide Own;
    hide Untrack;
    hide ToRemove;
    hide Records;
    hide ApplyOps;
    hide AnnotationRemovals;
    var lr := Untrack(Lookup(n.annotations, Own(instance, FEATURE_LABELS)));
    var ar := AnnotationRemovals(instance, n);
    var lp := PatchList(lr, n.labels, d.labels, lo);
    var ap := PatchList(ar, n.annotations, Wanted(instance, d), ao);
    LabelRemovalsDistinct(instance, n, o);
    AnnotationRemovalsDistinct(instance, n, o);
    ToRemoveDistinct(lr, n.labels, d.labels);
    ToRemoveDistinct(ar, n.annotations, Wanted(instance, d));
    PatchListApplies(lr, n.labels, d.labels, lo);
    PatchListApplies(ar, n.annotations, Wanted(instance, d), ao);
    PatchListEmpty(lr, n.labels, d.labels, lo);
    PatchListEmpty(ar, n.annotations, Wanted(instance, d), ao);
    NodeListApply(n1, lp, ap);
    NodeListNone(lp, ap);
  }

  lemma NodeListNone(lp: seq<Op>, ap: seq<Op>)
    ensures NodeList(lp, ap) == [] <==> lp == [] && ap == []
  {
    assert |NodeList(lp, ap)| == |lp| + |ap|;
  }

  // ----- updateNodeObject -----

  lemma {:induction false} UpsertsKeys(keys: seq<string>, have: Items, want: Items)
    requires Elems(keys) <= want.Keys
    ensures forall op | op in Upserts(keys, have, want) :: op.key in want
    decreases keys
  {
    if keys != [] {
      assert keys[0] in Elems(keys);
      assert Elems(keys[1..]) <= Elems(keys);
      UpsertsKeys(keys[1..], have, want);
    }
  }

  lemma PatchListKeys(sec: Section, removeKeys: seq<string>, have: Items, want: Items, order: seq<string>)
    requires Elems(order) <= want.Keys
    requires forall k | k in Elems(removeKeys) :: TrackableKey(k)
    requires forall k | k in want :: TrackableKey(k)
    ensures AllTrackable(OnSection(sec, PatchList(removeKeys, have, want, order)))
  {
    hide TrackableKey;
    hide Upserts;
    hide ToRemove;
    var gone := ToRemove(removeKeys, have, want);
    ToRemoveElems(removeKeys, have, want);
    UpsertsKeys(order, have, want);
    var ops := PatchList(removeKeys, have, want, order);
    forall op | op in ops ensures TrackableKey(op.key) {
      if op in Removes(gone) {
        var i :| 0 <= i < |gone| && Removes(gone)[i] == op;
        assert gone[i] in Elems(gone);
      }
    }
  }

  lemma WantedTrackable(instance: string, d: Desired)
    requires ValidInstance(instance) && ValidDesired(d)
    ensures forall k | k in Wanted(instance, d) :: TrackableKey(k)
    ensures forall k | k in d.labels :: TrackableKey(k)
    ensures forall k | k in d.resources :: TrackableKey(k)
  {
    hide TrackableKey;
    hide LabelKey;
    hide FeatureKey;
    hide Own;
    hide Track;
    OwnNamesDistinct(instance);
    forall k | k in d.labels || k in d.annotations || k in d.resources ensures TrackableKey(k) {
      ValidatedKeysTrackable(k);
    }
    assert Own(instance, FEATURE_LABELS) == OwnNames(instance)[0];
    assert Own(instance, EXTENDED_RESOURCES) == OwnNames(instance)[1];
    assert Own(instance, FEATURE_ANNOTATIONS) == OwnNames(instance)[2];
  }

  /** The annotations map that updateNodeObject builds up. */
  method BuildAnnotations(instance: string, d: Desired) returns (annotations: Items)
    requires ValidInstance(instance) && ValidDesired(d)
    ensures annotations == Wanted(instance, d)
  {
    hide TrackableKey;
    hide LabelKey;
    hide FeatureKey;
    hide Own;
    hide Track;
    hide TrackingEntry;
    WantedTrackable(instance, d);
    forall k | k in d.annotations ensures TrackableKey(k) { ValidatedKeysTrackable(k); }
    annotations := StoreNames(map[], Own(instance, FEATURE_LABELS), d.labels);
    assert map[] + TrackingEntry(Own(instance, FEATURE_LABELS), d.labels.Keys)
        == TrackingEntry(Own(instance, FEATURE_LABELS), d.labels.Keys);
    annotations := StoreNames(annotations, Own(instance, EXTENDED_RESOURCES), d.resources);
    annotations := StoreNames(annotations, Own(instance, FEATURE_ANNOTATIONS), d.annotations);
    annotations := annotations + d.annotations;
  }

  /** Records the names of a map's keys under an annotation, if there are any. */
  method StoreNames(annotations: Items, key: string, items: Items) returns (r: Items)
    requires forall k | k in items :: TrackableKey(k)
    ensures r == annotations + TrackingEntry(key, items.Keys)
  {
    hide TrackableKey;
    hide Track;
    r := annotations;
    if |items| > 0 {
      var v := TrackingValue(items.Keys);
      r := r[key := v];
    }
  }

  /** Sends the changes as JSON, unless there are none. */
  method PatchNode(api: ApiServer, cs: seq<Change>, fails: bool, status: bool) returns (ok: bool)
    requires AllTrackable(cs)
    modifies api
    ensures ok == (cs == [] || (!fails && ApplyChanges(old(api.node), cs).Some?))
    ensures api.node == if ok && cs != [] then Settle(ApplyChanges(old(api.node), cs).value, status) else old(api.node)
  {
    hide TrackableKey;
    if |cs| == 0 {
      return true;
    }
    JsonFaithful(api.node, cs);
    ok := api.Patch(ToJsonList(cs), fails, status);
  }

  /** The changes to the node's status, in list form. */
  method StatusChanges(q: Quantities, instance: string, node: Node, ghost o: Owned, d: Desired)
    returns (cs: seq<Change>)
    requires ValidInstance(instance) && ValidDesired(d) && ValidOwned(o) && Records(instance, node, o)
    requires StatusConsistent(node)
    ensures AllTrackable(cs)
    ensures cs == [] <==> !StatusPatchNeeded(q, node, o, d)
    ensures ApplyChanges(node, cs).Some? && Settle(ApplyChanges(node, cs).value, true) == Resourced(q, node, o, d)
  {
    hide TrackableKey;
    hide LabelKey;
    hide FeatureKey;
    hide Own;
    hide Track;
    hide Untrack;
    hide ApplyChanges;
    hide RemovePairs;
    hide WritePairs;
    hide ToRemove;
    var tracked := Untrack(Lookup(node.annotations, Own(instance, EXTENDED_RESOURCES)));
    LabelRemovalsDistinct(instance, node, o);
    WantedTrackable(instance, d);
    ghost var order;
    cs, order := CreateExtendedResourcePatches(q, tracked, node.capacity, d.resources);
    StatusListApplies(q, node, tracked, o, d, order);
    StatusListEmpty(q, node, tracked, o, d, order);
    ghost var gone := ToRemove(tracked, node.capacity, d.resources);
    ToRemoveElems(tracked, node.capacity, d.resources);
    assert forall k | k in gone :: k in Elems(gone);
    assert forall k | k in order :: k in Elems(order);
    RemovePairsKeys(gone);
    WritePairsKeys(order, node.capacity, d.resources);
  }

  /** The changes to labels and annotations, in list form. */
  method NodeChanges(instance: string, node: Node, ghost o: Owned, d: Desired) returns (cs: seq<Change>)
    requires ValidInstance(instance) && ValidDesired(d) && ValidOwned(o) && Records(instance, node, o)
    ensures AllTrackable(cs)
    ensures cs == [] <==> !NodePatchNeeded(instance, node, o, d)
    ensures forall n1: Node | n1.labels == node.labels && n1.annotations == node.annotations ::
      ApplyChanges(n1, cs)
      == if NodePatchAcceptable(instance, node, d) then Some(Reconciled(instance, n1, o, d)) else None
  {
    hide TrackableKey;
    hide LabelKey;
    hide FeatureKey;
    hide Own;
    hide Track;
    hide Untrack;
    hide ApplyChanges;
    hide PatchList;
    hide Wanted;
    hide Reconciled;
    hide NodePatchAcceptable;
    hide NodePatchNeeded;
    hide AnnotationsToDrop;
    var annotations := BuildAnnotations(instance, d);
    var oldLabels := Untrack(Lookup(node.annotations, Own(instance, FEATURE_LABELS)));
    var oldAnnotations := AnnotationRemovals(instance, node);
    LabelRemovalsDistinct(instance, node, o);
    AnnotationRemovalsDistinct(instance, node, o);
    WantedTrackable(instance, d);
    ghost var lo, ao;
    var lp, ap;
    lp, lo := CreatePatches(oldLabels, node.labels, d.labels);
    ap, ao := CreatePatches(oldAnnotations, node.annotations, annotations);
    cs := NodeList(lp, ap);
    PatchListKeys(Labels, oldLabels, node.labels, d.labels, lo);
    PatchListKeys(Annotations, oldAnnotations, node.annotations, annotations, ao);
    NodeListApplies(instance, node, node, o, d, lo, ao);
    forall n1: Node | n1.labels == node.labels && n1.annotations == node.annotations
      ensures ApplyChanges(n1, cs)
        == if NodePatchAcceptable(instance, node, d) then Some(Reconciled(instance, n1, o, d)) else None
    {
      NodeListApplies(instance, node, n1, o, d, lo, ao);
    }
  }

  lemma ReconciledNothing(instance: string, n: Node, n1: Node, o: Owned, d: Desired)
    requires !NodePatchNeeded(instance, n, o, d)
    requires n1.labels == n.labels && n1.annotations == n.annotations
    ensures Reconciled(instance, n1, o, d) == n1
  {
    hide Wanted;
    hide AnnotationsToDrop;
    NothingDiffers(o.labels, n.labels, d.labels);
    NothingDiffers(AnnotationsToDrop(instance, o), n.annotations, Wanted(instance, d));
  }

  lemma NothingDiffers(drop: set<string>, have: Items, want: Items)
    requires !Differs(drop, have, want)
    ensures have - drop + want == have
  {
    forall k | k in want ensures k in have && have[k] == want[k] {
      assert k !in Changed(have, want);
    }
  }

  /** updateNodeObject, up to the taints. */
  method UpdateNodeObject(api: ApiServer, q: Quantities, instance: string, d: Desired, f: Faults, ghost o: Owned)
    returns (outcome: Outcome)
    requires ValidInstance(instance) && ValidDesired(d) && ValidOwned(o)
    requires Records(instance, api.node, o) && StatusConsistent(api.node)
    modifies api
    ensures (api.node, outcome) == UpdateSpec(q, instance, old(api.node), o, d, f)
  {
    hide TrackableKey;
    hide ValidDesired;
    hide ApplyChanges;
    hide Records;
    hide ValidInstance;
    hide StatusPatchNeeded;
    hide NodePatchNeeded;
    hide NodePatchAcceptable;
    if f.get {
      return GetFailed;
    }
    var node := api.node;
    var patches := NodeChanges(instance, node, o, d);
    var statusPatches := StatusChanges(q, instance, node, o, d);
    var ok := PatchNode(api, statusPatches, f.status, true);
    if !ok {
      return StatusFailed;
    }
    assert api.node.labels == node.labels && api.node.annotations == node.annotations;
    if patches == [] {
      ReconciledNothing(instance, node, api.node, o, d);
    }
    ok := PatchNode(api, patches, f.patch, false);
    if !ok {
      return PatchFailed;
    }
    return Updated;
  }
}
