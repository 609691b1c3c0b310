/**
Runs of node updates. Between updates others may write labels of the same node,
and any API call of an update may fail. The state carries the history that the
statements are about next to the node itself.
*/
module NodeRuns {
  import opened Basics
  import opened Ordering
  import opened Names
  import opened OwnAnnotations
  import opened Patches
  import opened NodeApi
  import opened Reconciler

  datatype Event =
    | Update(desired: Desired, faults: Faults)
    | ForeignLabel(key: string, value: Option<string>)

  datatype State = State(
    node: Node,
    owned: Owned,            // the keys of the last successful update
    written: Items,          // the labels of the last successful update
    noted: Items,            // the annotations of the last successful update
    stomped: set<string>,    // labels that others wrote since then
    live: set<string>)       // resources nfd-master put on the node and has not removed

  function WriteLabel(m: Items, key: string, value: Option<string>): Items {
    match value
    case None => m - {key}
    case Some(v) => m[key := v]
  }

  function OwnedBy(d: Desired): Owned {
    Owned(d.labels.Keys, d.annotations.Keys, d.resources.Keys)
  }

  /** Resources on the node that nfd-master put there, once the status patch has been applied. */
  function LiveAfter(s: State, d: Desired): set<string> {
    s.live - (s.owned.resources - d.resources.Keys) + d.resources.Keys
  }

  ghost function Step(q: Quantities, instance: string, s: State, e: Event): State {
    match e
    case ForeignLabel(key, value) =>
      s.(node := s.node.(labels := WriteLabel(s.node.labels, key, value)), stomped := s.stomped + {key})
    case Update(d, f) =>
      var (n, outcome) := UpdateSpec(q, instance, s.node, s.owned, d, f);
      match outcome
      case Updated => State(n, OwnedBy(d), d.labels, d.annotations, {}, LiveAfter(s, d))
      case PatchFailed => s.(node := n, live := LiveAfter(s, d))
      case _ => s.(node := n)
  }

  ghost function Run(q: Quantities, instance: string, s: State, es: seq<Event>): State
    decreases es
  {
    if es == [] then s else Run(q, instance, Step(q, instance, s, es[0]), es[1..])
  }

  ghost predicate ValidEvent(e: Event) {
    e.Update? ==> ValidDesired(e.desired)
  }

  /** A node that no nfd-master instance of this name has touched. */
  ghost predicate Fresh(instance: string, s: State) {
    && (forall k | k in OwnNames(instance) :: k !in s.node.annotations)
    && StatusConsistent(s.node)
    && s == State(s.node, Owned({}, {}, {}), map[], map[], {}, {})
  }

  ghost predicate Invariant(instance: string, s: State) {
    && ValidOwned(s.owned) && Records(instance, s.node, s.owned) && StatusConsistent(s.node)
    && s.owned.labels == s.written.Keys && s.owned.annotations == s.noted.Keys
    && (forall k | k in s.written && k !in s.stomped :: k in s.node.labels && s.node.labels[k] == s.written[k])
    && (forall k | k in s.noted :: k in s.node.annotations && s.node.annotations[k] == s.noted[k])
  }

  // ----- The invariant -----

  lemma TrackNothing()
    ensures Track({}) == ""
  {
    TrackingFaithful({});
  }

  lemma FreshInvariant(instance: string, s: State)
    requires Fresh(instance, s)
    ensures Invariant(instance, s)
  {
    hide Track;
    hide Own;
    TrackNothing();
    var own := OwnNames(instance);
    assert Own(instance, FEATURE_LABELS) in own;
    assert Own(instance, EXTENDED_RESOURCES) in own;
    assert Own(instance, FEATURE_ANNOTATIONS) in own;
  }

  /** What the wanted annotations say under the three tracking names. */
  lemma WantedLookups(instance: string, d: Desired)
    requires ValidInstance(instance) && ValidDesired(d)
    ensures var w := Wanted(instance, d);
      && Lookup(w, Own(instance, FEATURE_LABELS)) == Track(d.labels.Keys)
      && Lookup(w, Own(instance, EXTENDED_RESOURCES)) == Track(d.resources.Keys)
      && Lookup(w, Own(instance, FEATURE_ANNOTATIONS)) == Track(d.annotations.Keys)
  {
    hide Track;
    hide Own;
    hide FeatureKey;
    hide LabelKey;
    hide TrackableKey;
    TrackNothing();
    OwnNamesDistinct(instance);
    var own := OwnNames(instance);
    assert own[0] in own && own[1] in own && own[2] in own;
    assert own[0] != own[1] && own[0] != own[2] && own[1] != own[2];
    assert own[0] !in d.annotations && own[1] !in d.annotations && own[2] !in d.annotations;
  }

  lemma OverlaidLookup(m: Items, drop: set<string>, w: Items, k: string)
    requires k in drop
    ensures Lookup(m - drop + w, k) == Lookup(w, k)
  {
  }

  /** The records written by an update are those of the keys it wrote. */
  lemma UpdateRecords(instance: string, n: Node, o: Owned, d: Desired)
    requires ValidInstance(instance) && ValidDesired(d)
    ensures Records(instance, Reconciled(instance, n, o, d), OwnedBy(d))
    ensures ValidOwned(OwnedBy(d))
    ensures forall k | k in d.annotations ::
      var r := Reconciled(instance, n, o, d).annotations;
      k in r && r[k] == d.annotations[k]
  {
    hide Track;
    hide Own;
    hide FeatureKey;
    hide LabelKey;
    hide TrackableKey;
    hide Wanted;
    hide Lookup;
    WantedTrackable(instance, d);
    WantedLookups(instance, d);
    var own, drop, w := OwnNames(instance), AnnotationsToDrop(instance, o), Wanted(instance, d);
    assert own[0] in Elems(own) && own[1] in Elems(own) && own[2] in Elems(own);
    OverlaidLookup(n.annotations, drop, w, own[0]);
    OverlaidLookup(n.annotations, drop, w, own[1]);
    OverlaidLookup(n.annotations, drop, w, own[2]);
    AnnotationsWanted(instance, d);
  }

  lemma AnnotationsWanted(instance: string, d: Desired)
    ensures forall k | k in d.annotations :: k in Wanted(instance, d) && Wanted(instance, d)[k] == d.annotations[k]
  {
    hide Own;
    hide Track;
  }

  /** The status patch leaves labels and annotations alone. */
  lemma ResourcedFrame(q: Quantities, n: Node, o: Owned, d: Desired)
    requires StatusConsistent(n)
    ensures var r := Resourced(q, n, o, d);
      r.labels == n.labels && r.annotations == n.annotations && StatusConsistent(r)
  {
  }

  /** The node after an update that did not get as far as the node patch. */
  ghost predicate OnlyStatusChanged(n: Node, n': Node) {
    n'.labels == n.labels && n'.annotations == n.annotations && StatusConsistent(n')
  }

  /** An update either succeeds as a whole or leaves labels and annotations as they were. */
  lemma UpdateAtomic(q: Quantities, instance: string, n: Node, o: Owned, d: Desired, f: Faults)
    requires StatusConsistent(n)
    ensures var (n', outcome) := UpdateSpec(q, instance, n, o, d, f);
      if outcome == Updated
      then exists n1 | OnlyStatusChanged(n, n1) :: n' == Reconciled(instance, n1, o, d)
      else OnlyStatusChanged(n, n')
  {
    hide Resourced;
    hide Reconciled;
    hide NodePatchNeeded;
    hide NodePatchAcceptable;
    hide StatusPatchNeeded;
    ResourcedFrame(q, n, o, d);
    assert OnlyStatusChanged(n, n) && OnlyStatusChanged(n, Resourced(q, n, o, d));
  }

  lemma UpdateKeeps(q: Quantities, instance: string, s: State, d: Desired, f: Faults)
    requires ValidInstance(instance) && ValidDesired(d) && Invariant(instance, s)
    ensures Invariant(instance, Step(q, instance, s, Update(d, f)))
  {
    hide Track;
    hide Own;
    hide Wanted;
    hide AnnotationsToDrop;
    hide UpdateSpec;
    hide ValidDesired;
    hide ValidOwned;
    UpdateAtomic(q, instance, s.node, s.owned, d, f);
    var (n', outcome) := UpdateSpec(q, instance, s.node, s.owned, d, f);
    if outcome == Updated {
      var n1 :| OnlyStatusChanged(s.node, n1) && n' == Reconciled(instance, n1, s.owned, d);
      UpdateRecords(instance, n1, s.owned, d);
    }
  }

  lemma StepKeeps(q: Quantities, instance: string, s: State, e: Event)
    requires ValidInstance(instance) && ValidEvent(e) && Invariant(instance, s)
    ensures Invariant(instance, Step(q, instance, s, e))
  {
    hide Track;
    hide Own;
    if e.Update? {
      UpdateKeeps(q, instance, s, e.desired, e.faults);
    }
  }

  lemma {:induction false} RunKeeps(q: Quantities, instance: string, s: State, es: seq<Event>)
    requires ValidInstance(instance) && Invariant(instance, s)
    requires forall e | e in es :: ValidEvent(e)
    ensures Invariant(instance, Run(q, instance, s, es))
    decreases es
  {
    hide Invariant;
    hide ValidEvent;
    hide Step;
    if es != [] {
      assert es[0] in es;
      StepKeeps(q, instance, s, es[0]);
      RunKeeps(q, instance, Step(q, instance, s, es[0]), es[1..]);
    }
  }

  predicate NeverForeign(es: seq<Event>, k: string) {
    forall e | e in es && e.ForeignLabel? :: e.key != k
  }

  lemma StepOwnLabel(q: Quantities, instance: string, s: State, e: Event, k: string)
    requires Invariant(instance, s) && (e.ForeignLabel? ==> e.key != k)
    requires k !in s.stomped && (k in s.written || k !in s.node.labels)
    ensures var t := Step(q, instance, s, e);
      k !in t.stomped && (k in t.written || k !in t.node.labels)
  {
    hide Wanted;
    hide AnnotationsToDrop;
    hide Records;
    hide ValidOwned;
    hide NodePatchNeeded;
    hide NodePatchAcceptable;
    hide StatusPatchNeeded;
  }

  /** A label that only nfd-master writes is on the node only as long as it is recorded. */
  lemma {:induction false} UnrecordedLabelsGone(q: Quantities, instance: string, s: State, es: seq<Event>, k: string)
    requires ValidInstance(instance) && Invariant(instance, s) && (forall e | e in es :: ValidEvent(e))
    requires NeverForeign(es, k) && k !in s.stomped && (k in s.written || k !in s.node.labels)
    ensures var t := Run(q, instance, s, es);
      k !in t.stomped && (k in t.written || k !in t.node.labels)
    decreases es
  {
    hide Invariant;
    hide ValidEvent;
    hide Step;
    if es != [] {
      assert es[0] in es;
      StepKeeps(q, instance, s, es[0]);
      StepOwnLabel(q, instance, s, es[0], k);
      UnrecordedLabelsGone(q, instance, Step(q, instance, s, es[0]), es[1..], k);
    }
  }

  /**
  After any run on a fresh node, the tracking annotation names exactly the
  labels of the last successful update, each once; those that nobody else has
  written since are on the node with the values they were given; and of the
  labels that nfd-master alone writes no others are there.
  */
  lemma TrackedLabelsExact(q: Quantities, instance: string, s: State, es: seq<Event>)
    requires ValidInstance(instance) && Fresh(instance, s)
    requires forall e | e in es :: ValidEvent(e)
    ensures var t := Run(q, instance, s, es);
      var names := Untrack(Lookup(t.node.annotations, Own(instance, FEATURE_LABELS)));
      && NoDuplicates(names) && Elems(names) == t.written.Keys
      && (forall k | k in t.written && k !in t.stomped :: k in t.node.labels && t.node.labels[k] == t.written[k])
      && (forall k | k !in s.node.labels && NeverForeign(es, k) :: k in t.node.labels <==> k in t.written)
  {
    hide Run;
    hide Track;
    hide Untrack;
    hide ValidEvent;
    hide NeverForeign;
    FreshInvariant(instance, s);
    RunKeeps(q, instance, s, es);
    var t := Run(q, instance, s, es);
    TrackingFaithful(t.owned.labels);
    forall k | k !in s.node.labels && NeverForeign(es, k) ensures k in t.node.labels <==> k in t.written {
      UnrecordedLabelsGone(q, instance, s, es, k);
    }
  }

  /** The same for feature annotations, which nobody else writes. */
  lemma TrackedAnnotationsExact(q: Quantities, instance: string, s: State, es: seq<Event>)
    requires ValidInstance(instance) && Fresh(instance, s)
    requires forall e | e in es :: ValidEvent(e)
    ensures var t := Run(q, instance, s, es);
      var names := Untrack(Lookup(t.node.annotations, Own(instance, FEATURE_ANNOTATIONS)));
      && NoDuplicates(names) && Elems(names) == t.noted.Keys
      && (forall k | k in t.noted :: k in t.node.annotations && t.node.annotations[k] == t.noted[k])
      && (forall k | FeatureKey(k) && k !in s.node.annotations :: k in t.node.annotations <==> k in t.noted)
  {
    hide Run;
    hide Track;
    hide Untrack;
    hide ValidEvent;
    hide FeatureKey;
    hide Own;
    FreshInvariant(instance, s);
    RunKeeps(q, instance, s, es);
    var t := Run(q, instance, s, es);
    forall k | k in t.owned.annotations ensures TrackableKey(k) { ValidatedKeysTrackable(k); }
    TrackingFaithful(t.owned.annotations);
    forall k | FeatureKey(k) && k !in s.node.annotations ensures k in t.node.annotations <==> k in t.noted {
      UnrecordedAnnotationsGone(q, instance, s, es, k);
    }
  }

  lemma {:induction false} UnrecordedAnnotationsGone(q: Quantities, instance: string, s: State, es: seq<Event>,
                                                     k: string)
    requires ValidInstance(instance) && Invariant(instance, s) && (forall e | e in es :: ValidEvent(e))
    requires FeatureKey(k) && (k in s.noted || k !in s.node.annotations)
    ensures var t := Run(q, instance, s, es);
      k in t.noted || k !in t.node.annotations
    decreases es
  {
    hide Invariant;
    hide ValidEvent;
    hide Step;
    hide FeatureKey;
    if es != [] {
      assert es[0] in es;
      StepKeeps(q, instance, s, es[0]);
      StepOwnAnnotation(q, instance, s, es[0], k);
      UnrecordedAnnotationsGone(q, instance, Step(q, instance, s, es[0]), es[1..], k);
    }
  }

  lemma StepOwnAnnotation(q: Quantities, instance: string, s: State, e: Event, k: string)
    requires ValidInstance(instance) && Invariant(instance, s) && FeatureKey(k)
    requires k in s.noted || k !in s.node.annotations
    ensures var t := Step(q, instance, s, e);
      k in t.noted || k !in t.node.annotations
  {
    hide Wanted;
    hide Records;
    hide ValidOwned;
    hide NodePatchNeeded;
    hide NodePatchAcceptable;
    hide StatusPatchNeeded;
    hide FeatureKey;
    hide ValidInstance;
    if e.Update? {
      NoRecordOf(instance, e.desired, k);
    }
  }

  /** A feature key is among the annotations to write only as a desired one. */
  lemma NoRecordOf(instance: string, d: Desired, k: string)
    requires ValidInstance(instance) && FeatureKey(k)
    ensures k in Wanted(instance, d) <==> k in d.annotations
  {
    hide Track;
    hide FeatureKey;
    hide Own;
    OwnNamesDistinct(instance);
    var own := OwnNames(instance);
    assert own[0] in own && own[1] in own && own[2] in own;
  }

  // ----- What an update does to the labels -----

  /** Labels of the previous update that are no longer desired are gone, all others stay. */
  lemma DroppedLabelsGone(q: Quantities, instance: string, s: State, d: Desired, f: Faults)
    requires Invariant(instance, s)
    requires UpdateSpec(q, instance, s.node, s.owned, d, f).1 == Updated
    ensures var t := Step(q, instance, s, Update(d, f));
      && (forall k | k in s.written && k !in d.labels :: k !in t.node.labels)
      && (forall k | k in d.labels :: k in t.node.labels && t.node.labels[k] == d.labels[k])
      && (forall k | k !in s.written && k !in d.labels ::
            (k in t.node.labels <==> k in s.node.labels) && Lookup(t.node.labels, k) == Lookup(s.node.labels, k))
  {
    hide Wanted;
    hide AnnotationsToDrop;
    hide Records;
    hide ValidOwned;
    hide NodePatchNeeded;
    hide NodePatchAcceptable;
    hide StatusPatchNeeded;
  }

  /**
  The same for annotations: desired ones are there, recorded ones that are not
  desired are gone, the versions of old releases are gone, and all others stay.
  */
  lemma AnnotationsAfterUpdate(q: Quantities, instance: string, s: State, d: Desired, f: Faults, k: string)
    requires ValidInstance(instance) && Invariant(instance, s) && ValidDesired(d)
    requires UpdateSpec(q, instance, s.node, s.owned, d, f).1 == Updated
    ensures var a, p := Step(q, instance, s, Update(d, f)).node.annotations, InstancePrefix(instance);
      && (k in d.annotations ==> k in a && a[k] == d.annotations[k])
      && (k in s.noted && k !in d.annotations ==> k !in a)
      && p + "nfd.node.kubernetes.io/master.version" !in a && p + "nfd.node.kubernetes.io/worker.version" !in a
      && (k !in s.noted && k !in d.annotations && k !in OwnNames(instance) ==> SameAt(a, s.node.annotations, k))
  {
    hide UpdateSpec;
    hide Reconciled;
    hide Records;
    hide Own;
    hide OwnNames;
    hide ValidInstance;
    hide ValidDesired;
    OwnNamesSpelled(instance);
    UpdateAtomic(q, instance, s.node, s.owned, d, f);
    var n' := UpdateSpec(q, instance, s.node, s.owned, d, f).0;
    var n1 :| OnlyStatusChanged(s.node, n1) && n' == Reconciled(instance, n1, s.owned, d);
    ReconciledAnnotations(instance, n1, s.owned, d, k);
  }

  lemma ReconciledAnnotations(instance: string, n: Node, o: Owned, d: Desired, k: string)
    requires ValidInstance(instance) && ValidOwned(o) && ValidDesired(d)
    ensures var a, own := Reconciled(instance, n, o, d).annotations, OwnNames(instance);
      && (k in d.annotations ==> k in a && a[k] == d.annotations[k])
      && (k in o.annotations && k !in d.annotations ==> k !in a)
      && own[3] !in a && own[4] !in a
      && (k !in o.annotations && k !in d.annotations && k !in own ==> SameAt(a, n.annotations, k))
  {
    hide Wanted;
    hide Own;
    hide FeatureKey;
    hide LabelKey;
    hide TrackableKey;
    hide ValidInstance;
    OwnNamesDistinct(instance);
    AnnotationsWanted(instance, d);
    WantedKeys(instance, d);
    var own := OwnNames(instance);
    assert own[0] in own && own[1] in own && own[2] in own && own[3] in own && own[4] in own;
    assert forall x :: x in own <==> x in Elems(own);
  }

  lemma WantedKeys(instance: string, d: Desired)
    ensures forall k | k in Wanted(instance, d) && k !in d.annotations ::
      k in [Own(instance, FEATURE_LABELS), Own(instance, EXTENDED_RESOURCES), Own(instance, FEATURE_ANNOTATIONS)]
  {
    hide Own;
    hide Track;
  }

  /** Every empty value that is wanted is already there. */
  ghost predicate NoEmptyWrite(have: Items, want: Items) {
    forall k | k in want && want[k] == "" :: k in have && have[k] == ""
  }

  lemma EmptyWrites(have: Items, want: Items)
    ensures (forall k | k in Changed(have, want) :: want[k] != "") <==> NoEmptyWrite(have, want)
  {
    if forall k | k in Changed(have, want) :: want[k] != "" {
      forall k | k in want && want[k] == "" ensures k in have && have[k] == "" {
        assert k !in Changed(have, want);
      }
    }
  }

  /** Without faults an update succeeds exactly when it need not write an empty value. */
  lemma UpdateSucceedsExactly(q: Quantities, instance: string, n: Node, o: Owned, d: Desired)
    requires ValidInstance(instance) && ValidDesired(d)
    ensures UpdateSpec(q, instance, n, o, d, Faults(false, false, false)).1 == Updated <==>
      NoEmptyWrite(n.labels, d.labels) && NoEmptyWrite(n.annotations, d.annotations)
  {
    hide AnnotationsToDrop;
    hide StatusPatchNeeded;
    hide Resourced;
    hide Reconciled;
    hide Wanted;
    hide ValidDesired;
    var w := Wanted(instance, d);
    WantedNonEmpty(instance, d);
    EmptyWrites(n.labels, d.labels);
    EmptyWrites(n.annotations, w);
    assert NoEmptyWrite(n.annotations, w) <==> NoEmptyWrite(n.annotations, d.annotations);
  }

  /** A desired label with an empty value that is not on the node makes an update fail without any fault. */
  lemma EmptyLabelRefused(q: Quantities, instance: string, n: Node, o: Owned, tag: string)
    requires ValidInstance(instance) && LabelKey(tag) && tag !in n.labels
    ensures UpdateSpec(q, instance, n, o, Desired(map[tag := ""], map[], map[]), Faults(false, false, false)).1
      == PatchFailed
  {
    hide LabelKey;
    hide UpdateSpec;
    var d := Desired(map[tag := ""], map[], map[]);
    UpdateSucceedsExactly(q, instance, n, o, d);
    assert tag in d.labels && d.labels[tag] == "";
    FaultlessOutcome(q, instance, n, o, d);
  }

  lemma FaultlessOutcome(q: Quantities, instance: string, n: Node, o: Owned, d: Desired)
    ensures UpdateSpec(q, instance, n, o, d, Faults(false, false, false)).1 in {PatchFailed, Updated}
  {
    hide StatusPatchNeeded;
    hide NodePatchNeeded;
    hide NodePatchAcceptable;
    hide Resourced;
    hide Reconciled;
  }

  /** The records themselves are never empty. */
  lemma WantedNonEmpty(instance: string, d: Desired)
    requires ValidInstance(instance) && ValidDesired(d)
    ensures forall k | k in Wanted(instance, d) && k !in d.annotations :: Wanted(instance, d)[k] != ""
    ensures forall k | k in d.annotations :: k in Wanted(instance, d) && Wanted(instance, d)[k] == d.annotations[k]
  {
    hide Own;
    hide FeatureKey;
    hide LabelKey;
    hide TrackableKey;
    hide TrackingEntry;
    WantedTrackable(instance, d);
    forall k | k in d.annotations ensures TrackableKey(k) { ValidatedKeysTrackable(k); }
    EntryNonEmpty(Own(instance, FEATURE_LABELS), d.labels.Keys);
    EntryNonEmpty(Own(instance, EXTENDED_RESOURCES), d.resources.Keys);
    EntryNonEmpty(Own(instance, FEATURE_ANNOTATIONS), d.annotations.Keys);
  }

  lemma EntryNonEmpty(key: string, names: set<string>)
    requires forall k | k in names :: TrackableKey(k)
    ensures forall k | k in TrackingEntry(key, names) :: TrackingEntry(key, names)[k] != ""
  {
    TrackingFaithful(names);
  }

  // ----- Labels that nfd-master never writes -----

  /** The labels as the other writers alone would leave them. */
  function ForeignOnly(m: Items, es: seq<Event>): Items
    decreases es
  {
    if es == [] then m
    else if es[0].ForeignLabel? then ForeignOnly(WriteLabel(m, es[0].key, es[0].value), es[1..])
    else ForeignOnly(m, es[1..])
  }

  ghost predicate SameAt(a: Items, b: Items, k: string) {
    (k in a <==> k in b) && Lookup(a, k) == Lookup(b, k)
  }

  /** A label that no update desires looks as if nfd-master were not there. */
  lemma {:induction false} NeverDesiredUntouched(q: Quantities, instance: string, s: State, es: seq<Event>, m: Items,
                                                 k: string)
    requires ValidInstance(instance) && Invariant(instance, s)
    requires forall e | e in es :: ValidEvent(e) && (e.Update? ==> k !in e.desired.labels)
    requires k !in s.written && SameAt(s.node.labels, m, k)
    ensures SameAt(Run(q, instance, s, es).node.labels, ForeignOnly(m, es), k)
    decreases es
  {
    hide Invariant;
    hide ValidDesired;
    if es != [] {
      var e := es[0];
      assert e in es;
      var m' := if e.ForeignLabel? then WriteLabel(m, e.key, e.value) else m;
      StepKeeps(q, instance, s, e);
      StepUntouched(q, instance, s, e, m, k);
      NeverDesiredUntouched(q, instance, Step(q, instance, s, e), es[1..], m', k);
    }
  }

  lemma StepUntouched(q: Quantities, instance: string, s: State, e: Event, m: Items, k: string)
    requires Invariant(instance, s) && k !in s.written && SameAt(s.node.labels, m, k)
    requires e.Update? ==> k !in e.desired.labels
    ensures var m' := if e.ForeignLabel? then WriteLabel(m, e.key, e.value) else m;
      var t := Step(q, instance, s, e);
      k !in t.written && SameAt(t.node.labels, m', k)
  {
    hide Wanted;
    hide AnnotationsToDrop;
    hide Records;
    hide ValidOwned;
    hide NodePatchNeeded;
    hide NodePatchAcceptable;
    hide StatusPatchNeeded;
  }

  // ----- Updating twice -----

  /** Values whose integer is written the way it is formatted. */
  ghost predicate Canonical(q: Quantities, v: string) {
    q.format(q.asInt(v)) == v
  }

  /** Formatting the integer of a value and reading it again gives the same integer. */
  ghost predicate Reads(q: Quantities) {
    forall v {:trigger q.format(q.asInt(v))} :: q.asInt(q.format(q.asInt(v))) == q.asInt(v)
  }

  /**
  After a successful update the same update finds nothing to patch in labels
  and annotations, and nothing in the status either exactly if every resource
  value is a canonical decimal.
  */
  lemma SecondUpdateIsEmpty(q: Quantities, instance: string, n: Node, o: Owned, d: Desired, f: Faults)
    requires Reads(q)
    requires UpdateSpec(q, instance, n, o, d, f).1 == Updated
    ensures var n' := UpdateSpec(q, instance, n, o, d, f).0;
      && !NodePatchNeeded(instance, n', OwnedBy(d), d)
      && (!StatusPatchNeeded(q, n', OwnedBy(d), d) <==> forall k | k in d.resources :: Canonical(q, d.resources[k]))
  {
    hide Own;
    hide Track;
    hide NodePatchAcceptable;
    hide Wanted;
    hide Resourced;
    var n1 := if StatusPatchNeeded(q, n, o, d) then Resourced(q, n, o, d) else n;
    SettledSection(o.labels, n1.labels, d.labels, d.labels.Keys);
    WantedHasAnnotations(instance, d);
    SettledSection(AnnotationsToDrop(instance, o), n1.annotations, Wanted(instance, d),
                   AnnotationsToDrop(instance, OwnedBy(d)));
    SettledResources(q, n, o, d);
    assert Reconciled(instance, n1, o, d).capacity == n1.capacity;
  }

  lemma WantedHasAnnotations(instance: string, d: Desired)
    ensures d.annotations.Keys <= Wanted(instance, d).Keys
  {
    hide Own;
    hide Track;
  }

  /** A section that has been reconciled shows no difference. */
  lemma SettledSection(drop: set<string>, have: Items, want: Items, drop': set<string>)
    requires drop' <= drop + want.Keys
    ensures !Differs(drop', have - drop + want, want)
  {
    var m := have - drop + want;
    assert Changed(m, want) == {};
  }

  lemma SettledResources(q: Quantities, n: Node, o: Owned, d: Desired)
    requires Reads(q)
    ensures var n1 := if StatusPatchNeeded(q, n, o, d) then Resourced(q, n, o, d) else n;
      Stale(q, n1.capacity, d.resources) == {} <==> forall k | k in d.resources :: Canonical(q, d.resources[k])
  {
    var stale := Stale(q, n.capacity, d.resources);
    var n1 := if StatusPatchNeeded(q, n, o, d) then Resourced(q, n, o, d) else n;
    var stale1 := Stale(q, n1.capacity, d.resources);
    forall k | k in d.resources ensures k in stale1 <==> !Canonical(q, d.resources[k]) {
      if k in stale {
        assert StatusPatchNeeded(q, n, o, d);
        assert k in Pick(d.resources, stale);
      } else {
        assert k in n.capacity && k !in Pick(d.resources, stale);
        var x := q.asInt(n.capacity[k]);
        assert q.format(x) == d.resources[k] && q.asInt(q.format(x)) == x;
      }
      assert k in n1.capacity && n1.capacity[k] == if k in stale then d.resources[k] else n.capacity[k];
    }
    if forall k | k in d.resources :: Canonical(q, d.resources[k]) {
      assert forall k :: k !in stale1;
    }
  }

  /** Quantities in which "1k" and "1000" are the same number. */
  const KILO := Quantities(v => if v == "1k" || v == "1000" then 1000 else 0, x => if x == 1000 then "1000" else "0")

  /** A resource of "1k" is written by the first update and again by every later one. */
  lemma NonCanonicalWrittenAgain(instance: string, n: Node, o: Owned, key: string)
    requires ValidInstance(instance) && FeatureKey(key)
    ensures var d := Desired(map[], map[], map[key := "1k"]);
      var (n', outcome) := UpdateSpec(KILO, instance, n, o, d, Faults(false, false, false));
      Reads(KILO) && outcome == Updated && StatusPatchNeeded(KILO, n', OwnedBy(d), d)
  {
    hide FeatureKey;
    hide UpdateSpec;
    hide StatusPatchNeeded;
    var d := Desired(map[], map[], map[key := "1k"]);
    UpdateSucceedsExactly(KILO, instance, n, o, d);
    SecondUpdateIsEmpty(KILO, instance, n, o, d, Faults(false, false, false));
    assert key in d.resources && !Canonical(KILO, d.resources[key]);
  }

  // ----- What the records say -----

  /** The annotation lists the short names of the keys, in ascending order, and is empty for none. */
  ghost predicate Spells(value: string, keys: set<string>) {
    if keys == {} then value == ""
    else
      && Sorted(LessString, Split(value, ','))
      && Elems(Split(value, ',')) == set k | k in keys :: ShortName(k)
  }

  /** The three records on the node, as they are spelled there, after any run on a fresh node. */
  lemma RecordsSpelled(q: Quantities, instance: string, s: State, es: seq<Event>)
    requires ValidInstance(instance) && Fresh(instance, s)
    requires forall e | e in es :: ValidEvent(e)
    ensures var t, p := Run(q, instance, s, es), InstancePrefix(instance);
      && Spells(Lookup(t.node.annotations, p + "nfd.node.kubernetes.io/feature-labels"), t.written.Keys)
      && Spells(Lookup(t.node.annotations, p + "nfd.node.kubernetes.io/feature-annotations"), t.noted.Keys)
      && Spells(Lookup(t.node.annotations, p + "nfd.node.kubernetes.io/extended-resources"), t.owned.resources)
  {
    hide Run;
    hide Track;
    hide Own;
    hide ValidEvent;
    hide Spells;
    hide FeatureKey;
    hide TrackableKey;
    FreshInvariant(instance, s);
    RunKeeps(q, instance, s, es);
    OwnNamesSpelled(instance);
    var t := Run(q, instance, s, es);
    forall k | k in t.owned.annotations ensures TrackableKey(k) { ValidatedKeysTrackable(k); }
    TrackedReads(t.owned.labels);
    TrackedReads(t.owned.annotations);
    TrackedReads(t.owned.resources);
  }

  lemma TrackedReads(keys: set<string>)
    requires forall k | k in keys :: TrackableKey(k)
    ensures Spells(Track(keys), keys)
  {
    hide TrackableKey;
    hide Track;
    hide Split;
    hide ShortName;
    TrackingFaithful(keys);
    if keys != {} {
      TrackedList(keys);
    }
  }
}
