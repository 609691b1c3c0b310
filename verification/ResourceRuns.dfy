/**
Extended resources over runs of node updates. They travel in a patch of their
own, before their names are recorded, so the record can miss one; this module
says exactly when.
*/
module ResourceRuns {
  import opened Basics
  import opened Names
  import opened OwnAnnotations
  import opened Patches
  import opened NodeApi
  import opened Reconciler
  import opened NodeRuns

  // ----- What is on the node -----

  /** The resource has the desired value, or one with the same integer. */
  predicate Settled(q: Quantities, capacity: Items, k: string, v: string) {
    k in capacity && (capacity[k] == v || q.format(q.asInt(capacity[k])) == v)
  }

  /**
  Once the status patch of an update has been applied, every desired resource
  is in the capacity, those that the record named and that are not desired are
  gone, and all others are as before, whether or not the node patch succeeds.
  */
  lemma ResourcesAfterUpdate(q: Quantities, instance: string, n: Node, o: Owned, d: Desired, f: Faults)
    requires UpdateSpec(q, instance, n, o, d, f).1 in {PatchFailed, Updated}
    ensures var n' := UpdateSpec(q, instance, n, o, d, f).0;
      && (forall k | k in d.resources :: Settled(q, n'.capacity, k, d.resources[k]))
      && (forall k | k in o.resources && k !in d.resources :: k !in n'.capacity)
      && (forall k | k !in o.resources && k !in d.resources :: SameAt(n'.capacity, n.capacity, k))
  {
    hide Wanted;
    hide AnnotationsToDrop;
    hide NodePatchNeeded;
    hide NodePatchAcceptable;
    var n' := UpdateSpec(q, instance, n, o, d, f).0;
    var stale := Stale(q, n.capacity, d.resources);
    if StatusPatchNeeded(q, n, o, d) {
      assert n'.capacity == Resourced(q, n, o, d).capacity;
      forall k | k in d.resources ensures Settled(q, n'.capacity, k, d.resources[k]) {
        assert k in Pick(d.resources, stale) <==> k in stale;
      }
    } else {
      assert n'.capacity == n.capacity;
      forall k | k in d.resources ensures Settled(q, n'.capacity, k, d.resources[k]) {
        assert k !in stale;
      }
      forall k | k in o.resources && k !in d.resources ensures k !in n'.capacity {
        assert k !in o.resources * n.capacity.Keys;
      }
    }
  }

  /** Allocatable follows: removed with the capacity, rewritten with it, and never without a resource that has one. */
  lemma AllocatableAfterUpdate(q: Quantities, instance: string, n: Node, o: Owned, d: Desired, f: Faults, k: string)
    requires UpdateSpec(q, instance, n, o, d, f).1 in {PatchFailed, Updated} && StatusConsistent(n)
    ensures var n' := UpdateSpec(q, instance, n, o, d, f).0;
      && (k in d.resources ==> k in n'.allocatable)
      && (k in d.resources && k in n.capacity && q.format(q.asInt(n.capacity[k])) != d.resources[k] ==>
            k in n'.allocatable && n'.allocatable[k] == d.resources[k])
      && (k in d.resources && k !in n.allocatable ==> k in n'.allocatable && n'.allocatable[k] == d.resources[k])
      && (k in o.resources && k in n.capacity && k !in d.resources ==> k !in n'.allocatable)
      && (k !in o.resources && k !in d.resources ==> SameAt(n'.allocatable, n.allocatable, k))
  {
    hide Wanted;
    hide AnnotationsToDrop;
    hide NodePatchNeeded;
    hide NodePatchAcceptable;
    var n' := UpdateSpec(q, instance, n, o, d, f).0;
    var stale := Stale(q, n.capacity, d.resources);
    if StatusPatchNeeded(q, n, o, d) {
      assert n'.allocatable == Resourced(q, n, o, d).allocatable;
      assert k in Pick(d.resources, stale) <==> k in stale;
      assert k in Pick(d.resources, stale * n.capacity.Keys) <==> k in stale * n.capacity.Keys;
    } else {
      assert n'.allocatable == n.allocatable && k !in stale && k !in o.resources * n.capacity.Keys - d.resources.Keys;
    }
  }

  lemma StepResources(q: Quantities, instance: string, s: State, e: Event)
    requires s.live <= s.node.capacity.Keys
    ensures var t := Step(q, instance, s, e);
      && t.live <= t.node.capacity.Keys
      && (forall k | k !in s.owned.resources && (e.Update? ==> k !in e.desired.resources) ::
            k !in t.owned.resources && SameAt(t.node.capacity, s.node.capacity, k) && (k in s.live ==> k in t.live))
  {
    hide UpdateSpec;
    if e.Update? && UpdateSpec(q, instance, s.node, s.owned, e.desired, e.faults).1 in {PatchFailed, Updated} {
      ResourcesAfterUpdate(q, instance, s.node, s.owned, e.desired, e.faults);
      var t := Step(q, instance, s, e);
      forall k | k in t.live ensures k in t.node.capacity {
        if k in e.desired.resources {
          assert Settled(q, t.node.capacity, k, e.desired.resources[k]);
        } else {
          assert k !in s.owned.resources && SameAt(t.node.capacity, s.node.capacity, k);
        }
      }
    } else if e.Update? {
      EarlyFailure(q, instance, s.node, s.owned, e.desired, e.faults);
    }
  }

  lemma EarlyFailure(q: Quantities, instance: string, n: Node, o: Owned, d: Desired, f: Faults)
    requires UpdateSpec(q, instance, n, o, d, f).1 !in {PatchFailed, Updated}
    ensures UpdateSpec(q, instance, n, o, d, f).0 == n
  {
    hide NodePatchNeeded;
    hide NodePatchAcceptable;
    hide StatusPatchNeeded;
    hide Resourced;
    hide Reconciled;
  }

  /** In every run, what nfd-master put on the node and has not removed is in the capacity. */
  lemma {:induction false} LiveOnNode(q: Quantities, instance: string, s: State, es: seq<Event>)
    requires s.live <= s.node.capacity.Keys
    ensures Run(q, instance, s, es).live <= Run(q, instance, s, es).node.capacity.Keys
    decreases es
  {
    hide Step;
    if es != [] {
      StepResources(q, instance, s, es[0]);
      LiveOnNode(q, instance, Step(q, instance, s, es[0]), es[1..]);
    }
  }

  /** A resource that no record names stays on the node for good, until it is desired again. */
  lemma {:induction false} UnrecordedStays(q: Quantities, instance: string, s: State, es: seq<Event>, key: string)
    requires s.live <= s.node.capacity.Keys && key in s.live && key !in s.owned.resources
    requires forall e | e in es && e.Update? :: key !in e.desired.resources
    ensures var t := Run(q, instance, s, es);
      && key in t.live && key !in t.owned.resources
      && key in t.node.capacity && t.node.capacity[key] == s.node.capacity[key]
    decreases es
  {
    hide Step;
    if es != [] {
      assert es[0] in es;
      StepResources(q, instance, s, es[0]);
      var t := Step(q, instance, s, es[0]);
      assert SameAt(t.node.capacity, s.node.capacity, key);
      UnrecordedStays(q, instance, t, es[1..], key);
    }
  }

  // ----- What the record names -----

  function RecordOf(instance: string, n: Node): seq<string> {
    Untrack(Lookup(n.annotations, Own(instance, EXTENDED_RESOURCES)))
  }

  /** The annotation names exactly the resources that nfd-master put on the node and has not removed. */
  ghost predicate RecordExact(instance: string, s: State) {
    Elems(RecordOf(instance, s.node)) == s.live
  }

  lemma RecordIsOwned(instance: string, s: State)
    requires Invariant(instance, s)
    ensures NoDuplicates(RecordOf(instance, s.node)) && Elems(RecordOf(instance, s.node)) == s.owned.resources
  {
    hide Track;
    hide Untrack;
    hide Own;
    TrackingFaithful(s.owned.resources);
  }

  /** The update ends before its status patch is applied. */
  ghost predicate EndsEarly(q: Quantities, s: State, d: Desired, f: Faults) {
    f.get || (StatusPatchNeeded(q, s.node, s.owned, d) && f.status)
  }

  /** The node patch does not go through: its call fails, or an empty value would have to be written. */
  ghost predicate PatchStops(instance: string, s: State, d: Desired, f: Faults) {
    || (NodePatchNeeded(instance, s.node, s.owned, d) && f.patch)
    || !NoEmptyWrite(s.node.labels, d.labels) || !NoEmptyWrite(s.node.annotations, d.annotations)
  }

  lemma OutcomeExactly(q: Quantities, instance: string, s: State, d: Desired, f: Faults)
    requires ValidInstance(instance) && ValidDesired(d)
    ensures var outcome := UpdateSpec(q, instance, s.node, s.owned, d, f).1;
      && (outcome in {GetFailed, StatusFailed} <==> EndsEarly(q, s, d, f))
      && (outcome == PatchFailed <==> !EndsEarly(q, s, d, f) && PatchStops(instance, s, d, f))
  {
    hide AnnotationsToDrop;
    hide StatusPatchNeeded;
    hide Resourced;
    hide Reconciled;
    hide Wanted;
    hide ValidDesired;
    hide ValidInstance;
    var n, w := s.node, Wanted(instance, d);
    WantedNonEmpty(instance, d);
    EmptyWrites(n.labels, d.labels);
    EmptyWrites(n.annotations, w);
    assert NoEmptyWrite(n.annotations, w) <==> NoEmptyWrite(n.annotations, d.annotations);
    assert NodePatchAcceptable(instance, n, d) <==>
      NoEmptyWrite(n.labels, d.labels) && NoEmptyWrite(n.annotations, d.annotations);
  }

  /** When the record is exact after an update, from what was there before it. */
  ghost predicate LeavesExact(q: Quantities, instance: string, s: State, d: Desired, f: Faults) {
    if EndsEarly(q, s, d, f) then s.live == s.owned.resources
    else if PatchStops(instance, s, d, f) then d.resources.Keys == s.owned.resources && s.live <= s.owned.resources
    else s.live <= s.owned.resources + d.resources.Keys
  }

  /** After an update the record is exact if and only if the update and the state before it say so. */
  lemma ResourceRecordExact(q: Quantities, instance: string, s: State, d: Desired, f: Faults)
    requires ValidInstance(instance) && ValidDesired(d) && Invariant(instance, s)
    ensures RecordExact(instance, Step(q, instance, s, Update(d, f))) <==> LeavesExact(q, instance, s, d, f)
  {
    hide Invariant;
    hide UpdateSpec;
    hide RecordOf;
    hide EndsEarly;
    hide PatchStops;
    hide ValidDesired;
    hide ValidInstance;
    var t := Step(q, instance, s, Update(d, f));
    UpdateKeeps(q, instance, s, d, f);
    RecordIsOwned(instance, t);
    OutcomeExactly(q, instance, s, d, f);
    if !EndsEarly(q, s, d, f) && PatchStops(instance, s, d, f) {
      LiveAgainst(s, d, s.owned.resources);
    } else {
      LiveAgainst(s, d, d.resources.Keys);
    }
  }

  lemma LiveAgainst(s: State, d: Desired, names: set<string>)
    requires names == d.resources.Keys || names == s.owned.resources
    ensures names == d.resources.Keys ==>
      (LiveAfter(s, d) == names <==> s.live <= s.owned.resources + d.resources.Keys)
    ensures names == s.owned.resources ==>
      (LiveAfter(s, d) == names <==> d.resources.Keys == s.owned.resources && s.live <= s.owned.resources)
  {
    var want, own, live := d.resources.Keys, s.owned.resources, LiveAfter(s, d);
    assert want <= live && live * (own - want) == {};
    assert forall k | k in s.live :: k in own - want || k in live;
    if s.live <= own + want {
      assert live == want;
    }
  }

  /** Not the failing family: the update fails before its first patch, or completes, or changes no set of resources. */
  ghost predicate Harmless(q: Quantities, instance: string, s: State, d: Desired, f: Faults) {
    EndsEarly(q, s, d, f) || !PatchStops(instance, s, d, f) || d.resources.Keys == s.owned.resources
  }

  lemma {:induction false} RunSnoc(q: Quantities, instance: string, s: State, es: seq<Event>, e: Event)
    ensures Run(q, instance, s, es + [e]) == Step(q, instance, Run(q, instance, s, es), e)
    decreases es
  {
    hide Step;
    if es == [] {
      assert es + [e] == [e] && [e][1..] == [];
    } else {
      RunSnoc(q, instance, Step(q, instance, s, es[0]), es[1..], e);
      assert (es + [e])[1..] == es[1..] + [e];
    }
  }

  lemma StepRecord(q: Quantities, instance: string, s: State, e: Event)
    requires ValidInstance(instance) && ValidEvent(e) && Invariant(instance, s) && RecordExact(instance, s)
    ensures RecordExact(instance, Step(q, instance, s, e)) <==>
      (e.Update? ==> Harmless(q, instance, s, e.desired, e.faults))
  {
    hide Invariant;
    hide RecordOf;
    hide UpdateSpec;
    hide EndsEarly;
    hide PatchStops;
    hide ValidDesired;
    hide ValidInstance;
    RecordIsOwned(instance, s);
    if e.Update? {
      ResourceRecordExact(q, instance, s, e.desired, e.faults);
    } else {
      SameRecord(q, instance, s, e);
    }
  }

  lemma SameRecord(q: Quantities, instance: string, s: State, e: Event)
    requires e.ForeignLabel?
    ensures RecordOf(instance, Step(q, instance, s, e).node) == RecordOf(instance, s.node)
  {
    hide UpdateSpec;
  }

  /** Every update among the first n events is harmless in the state that it finds. */
  ghost predicate HarmlessTo(q: Quantities, instance: string, s: State, es: seq<Event>, n: nat)
    requires n <= |es|
  {
    forall i | 0 <= i < n && es[i].Update? ::
      Harmless(q, instance, Run(q, instance, s, es[..i]), es[i].desired, es[i].faults)
  }

  ghost predicate ExactTo(q: Quantities, instance: string, s: State, es: seq<Event>, n: nat)
    requires n <= |es|
  {
    forall i | 0 <= i <= n :: RecordExact(instance, Run(q, instance, s, es[..i]))
  }

  /**
  On a fresh node the record is exact throughout a run if and only if no update
  of it stops between its two patches while the set of resources changes.
  */
  lemma RecordExactThroughout(q: Quantities, instance: string, s: State, es: seq<Event>)
    requires ValidInstance(instance) && Fresh(instance, s) && forall e | e in es :: ValidEvent(e)
    ensures ExactTo(q, instance, s, es, |es|) <==> HarmlessTo(q, instance, s, es, |es|)
  {
    ExactToPrefix(q, instance, s, es, |es|);
  }

  lemma {:induction false} ExactToPrefix(q: Quantities, instance: string, s: State, es: seq<Event>, n: nat)
    requires ValidInstance(instance) && Fresh(instance, s) && (forall e | e in es :: ValidEvent(e)) && n <= |es|
    ensures ExactTo(q, instance, s, es, n) <==> HarmlessTo(q, instance, s, es, n)
    decreases n
  {
    hide Invariant;
    hide RecordExact;
    hide Harmless;
    hide Step;
    hide Run;
    hide Fresh;
    hide ValidEvent;
    if n == 0 {
      FreshRecord(q, instance, s);
      assert es[..0] == [];
    } else {
      ExactToPrefix(q, instance, s, es, n - 1);
      var t, e := Run(q, instance, s, es[..n - 1]), es[n - 1];
      assert e in es && forall x | x in es[..n - 1] :: x in es;
      assert es[..n] == es[..n - 1] + [e];
      RunSnoc(q, instance, s, es[..n - 1], e);
      FreshInvariant(instance, s);
      RunKeeps(q, instance, s, es[..n - 1]);
      if RecordExact(instance, t) {
        StepRecord(q, instance, t, e);
      }
      assert ExactTo(q, instance, s, es, n) <==>
        ExactTo(q, instance, s, es, n - 1) && RecordExact(instance, Run(q, instance, s, es[..n]));
    }
  }

  lemma FreshRecord(q: Quantities, instance: string, s: State)
    requires Fresh(instance, s) && ValidInstance(instance)
    ensures RecordExact(instance, Run(q, instance, s, []))
  {
    hide Own;
    hide Track;
    FreshInvariant(instance, s);
    RecordIsOwned(instance, s);
  }

  /**
  After any run on a fresh node, the record names the resources of the last
  successful update, each once; all that nfd-master has put on the node is in
  its capacity, and what of it is not recorded is what was left behind.
  */
  lemma ResourceRecordInRuns(q: Quantities, instance: string, s: State, es: seq<Event>)
    requires ValidInstance(instance) && Fresh(instance, s) && forall e | e in es :: ValidEvent(e)
    ensures var t := Run(q, instance, s, es);
      && NoDuplicates(RecordOf(instance, t.node)) && Elems(RecordOf(instance, t.node)) == t.owned.resources
      && t.live <= t.node.capacity.Keys
  {
    hide Run;
    hide ValidEvent;
    hide Own;
    FreshInvariant(instance, s);
    RunKeeps(q, instance, s, es);
    RecordIsOwned(instance, Run(q, instance, s, es));
    LiveOnNode(q, instance, s, es);
  }

  // ----- Resources left behind -----

  /**
  A resource can stay behind: added by an update whose node patch does not go
  through, and no longer desired by the next one, it remains in the capacity
  after that update has succeeded, and no record names it.
  */
  ghost predicate LeftBehind(q: Quantities, instance: string, s: State, d: Desired, f: Faults, key: string) {
    var t := Run(q, instance, s, [Update(d, f), Update(Desired(map[], map[], map[]), Faults(false, false, false))]);
    && t.owned == Owned({}, {}, {}) && RecordOf(instance, t.node) == [] && key in t.live && key in t.node.capacity
  }

  /** The call of the node patch fails. */
  lemma ResourceLeftBehind(q: Quantities, instance: string, s: State, key: string)
    requires ValidInstance(instance) && Fresh(instance, s) && FeatureKey(key) && key !in s.node.capacity
    ensures LeftBehind(q, instance, s, Desired(map[], map[], map[key := "1"]), Faults(false, false, true), key)
  {
    hide Own;
    hide Track;
    hide FeatureKey;
    hide Wanted;
    var d := Desired(map[], map[], map[key := "1"]);
    assert key in d.resources;
    RecordMissing(instance, s.node, d);
    AddedThenDropped(q, instance, s, d, Faults(false, false, true), key);
  }

  /** No call fails at all: a desired label has an empty value. */
  lemma EmptyLabelLeavesResource(q: Quantities, instance: string, s: State, tag: string, key: string)
    requires ValidInstance(instance) && Fresh(instance, s)
    requires LabelKey(tag) && tag !in s.node.labels && FeatureKey(key) && key !in s.node.capacity
    ensures var d := Desired(map[tag := ""], map[], map[key := "1"]);
      LeftBehind(q, instance, s, d, Faults(false, false, false), key)
  {
    hide FeatureKey;
    hide LabelKey;
    hide LeftBehind;
    var d := Desired(map[tag := ""], map[], map[key := "1"]);
    assert tag in d.labels && d.labels[tag] == "";
    AddedThenDropped(q, instance, s, d, Faults(false, false, false), key);
  }

  lemma AddedThenDropped(q: Quantities, instance: string, s: State, d: Desired, f: Faults, key: string)
    requires ValidInstance(instance) && ValidDesired(d) && Fresh(instance, s)
    requires d.resources.Keys == {key} && PatchStops(instance, s, d, f) && !f.get && !f.status
    ensures LeftBehind(q, instance, s, d, f, key)
  {
    hide Own;
    hide Step;
    hide PatchStops;
    hide ValidDesired;
    var none := Desired(map[], map[], map[]);
    AddedButNotRecorded(q, instance, s, d, f, key);
    var s1 := Step(q, instance, s, Update(d, f));
    NothingToDo(q, instance, s1);
    RunTwo(q, instance, s, Update(d, f), Update(none, Faults(false, false, false)));
    NoRecord(instance, s1.node);
  }

  lemma NoRecord(instance: string, n: Node)
    requires forall k | k in OwnNames(instance) :: k !in n.annotations
    ensures RecordOf(instance, n) == []
  {
    hide Own;
  }

  lemma RunTwo(q: Quantities, instance: string, s: State, e1: Event, e2: Event)
    ensures Run(q, instance, s, [e1, e2]) == Step(q, instance, Step(q, instance, s, e1), e2)
  {
    hide Step;
    var s1 := Step(q, instance, s, e1);
    assert [e1, e2][1..] == [e2] && [e2][1..] == [];
    assert Run(q, instance, s1, [e2]) == Run(q, instance, Step(q, instance, s1, e2), []);
  }

  lemma AddedButNotRecorded(q: Quantities, instance: string, s: State, d: Desired, f: Faults, key: string)
    requires ValidInstance(instance) && ValidDesired(d) && Fresh(instance, s)
    requires d.resources.Keys == {key} && PatchStops(instance, s, d, f) && !f.get && !f.status
    ensures var t := Step(q, instance, s, Update(d, f));
      && key in t.node.capacity && OnlyStatusChanged(s.node, t.node)
      && t == s.(node := t.node, live := {key})
  {
    hide Own;
    hide Track;
    hide UpdateSpec;
    hide PatchStops;
    hide ValidDesired;
    OutcomeExactly(q, instance, s, d, f);
    UpdateAtomic(q, instance, s.node, s.owned, d, f);
    ResourcesAfterUpdate(q, instance, s.node, s.owned, d, f);
    assert key in d.resources;
    assert Settled(q, UpdateSpec(q, instance, s.node, s.owned, d, f).0.capacity, key, d.resources[key]);
    assert LiveAfter(s, d) == {key};
  }

  lemma RecordMissing(instance: string, n: Node, d: Desired)
    requires d.resources != map[] && forall k | k in OwnNames(instance) :: k !in n.annotations
    ensures Changed(n.annotations, Wanted(instance, d)) != {}
  {
    hide Own;
    hide Track;
    var own := Own(instance, EXTENDED_RESOURCES);
    assert own in Wanted(instance, d) && own in OwnNames(instance);
    assert own in Changed(n.annotations, Wanted(instance, d));
  }

  lemma NothingToDo(q: Quantities, instance: string, s: State)
    requires s.owned == Owned({}, {}, {})
    requires forall k | k in OwnNames(instance) :: k !in s.node.annotations
    ensures var none := Desired(map[], map[], map[]);
      Step(q, instance, s, Update(none, Faults(false, false, false)))
      == State(s.node, s.owned, map[], map[], {}, s.live)
  {
    hide Own;
    var none := Desired(map[], map[], map[]);
    assert Wanted(instance, none) == map[];
    assert AnnotationsToDrop(instance, s.owned) * s.node.annotations.Keys == {};
    assert Stale(q, s.node.capacity, none.resources) == {};
    assert !NodePatchNeeded(instance, s.node, s.owned, none);
    ReconciledNothing(instance, s.node, s.node, s.owned, none);
    assert LiveAfter(s, none) == s.live;
  }
}
