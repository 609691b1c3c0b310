/**
The annotations in which an nfd-master instance keeps its own records, and why
no feature annotation can collide with them.
*/
module OwnAnnotations {
  import opened Basics
  import opened Names

  const ANNOTATION_NS := "nfd.node.kubernetes.io"

  // The instance's own annotations, without their namespace.
  const FEATURE_LABELS := "feature-labels"
  const EXTENDED_RESOURCES := "extended-resources"
  const FEATURE_ANNOTATIONS := "feature-annotations"
  const MASTER_VERSION := "master.version"
  const WORKER_VERSION := "worker.version"

  // ----- Names of the instance's own annotations -----

  /** The annotation namespace, prefixed with the instance name if there is one. */
  function OwnNs(instance: string): string {
    if instance == "" then ANNOTATION_NS else instance + "." + ANNOTATION_NS
  }

  /** instanceAnnotation of an annotation in the annotation namespace. */
  function Own(instance: string, name: string): string {
    OwnNs(instance) + "/" + name
  }

  /** The pattern that the -instance option is checked against. */
  predicate ValidInstance(instance: string) {
    instance == "" || PlainName(instance)
  }

  function OwnBases(): seq<string> {
    [FEATURE_LABELS, EXTENDED_RESOURCES, FEATURE_ANNOTATIONS, MASTER_VERSION, WORKER_VERSION]
  }

  function OwnNames(instance: string): seq<string> {
    [Own(instance, FEATURE_LABELS), Own(instance, EXTENDED_RESOURCES), Own(instance, FEATURE_ANNOTATIONS),
     Own(instance, MASTER_VERSION), Own(instance, WORKER_VERSION)]
  }

  lemma PlainConcat(a: string, b: string)
    requires PlainName(a) && PlainName(b)
    ensures PlainName(a + "." + b)
  {
    hide Alphanumeric;
    forall c | c in a + "." + b ensures NameChar(c) {
      assert c in a || c == '.' || c in b;
    }
  }

  lemma OwnNsPlain(instance: string)
    requires ValidInstance(instance)
    ensures PlainName(OwnNs(instance)) && '/' !in OwnNs(instance)
  {
    assert PlainName(ANNOTATION_NS);
    if instance != "" {
      PlainConcat(instance, ANNOTATION_NS);
    }
    assert !NameChar('/');
  }

  lemma SuffixOfTail(head: string, tail: string, suffix: string)
    requires HasSuffix(tail, suffix)
    ensures HasSuffix(head + tail, suffix)
  {
  }

  /** The namespace is reserved: no feature annotation is accepted in it. */
  lemma OwnNsReserved(instance: string)
    ensures KubernetesNs(OwnNs(instance)) && !FeatureNs(OwnNs(instance))
  {
    var ns := OwnNs(instance);
    assert HasSuffix(ANNOTATION_NS, ".kubernetes.io");
    SuffixOfTail(instance + ".", ANNOTATION_NS, ".kubernetes.io");
    assert ns[|ns| - 20] == 'd';
    assert FEATURE_NS[|FEATURE_NS| - 20] == 'e';
    assert FEATURE_SUB_NS_SUFFIX[|FEATURE_SUB_NS_SUFFIX| - 20] == 'e';
  }

  /** The own names are valid keys in a namespace that no feature annotation may use. */
  lemma OwnNameShape(instance: string, base: string)
    requires ValidInstance(instance) && PlainName(base)
    ensures TrackableKey(Own(instance, base)) && !FeatureKey(Own(instance, base))
  {
    hide PlainName;
    hide KubernetesNs;
    hide FeatureNs;
    var ns := OwnNs(instance);
    OwnNsPlain(instance);
    OwnNsReserved(instance);
    SplitNsOf(ns, base);
    assert Own(instance, base)[|ns|] == '/';
  }

  lemma OwnBasesPlain()
    ensures forall b | b in OwnBases() :: PlainName(b)
    ensures NoDuplicates(OwnBases())
  {
    assert PlainName(FEATURE_LABELS);
    assert PlainName(EXTENDED_RESOURCES);
    assert PlainName(FEATURE_ANNOTATIONS);
    assert PlainName(MASTER_VERSION);
    assert PlainName(WORKER_VERSION);
    assert FEATURE_LABELS[0] == 'f' && MASTER_VERSION[0] == 'm' && WORKER_VERSION[0] == 'w';
  }

  lemma OwnInjective(instance: string, a: string, b: string)
    requires Own(instance, a) == Own(instance, b)
    ensures a == b
  {
    assert a == Own(instance, a)[|OwnNs(instance)| + 1..];
    assert b == Own(instance, b)[|OwnNs(instance)| + 1..];
  }

  lemma OwnNamesDistinct(instance: string)
    requires ValidInstance(instance)
    ensures NoDuplicates(OwnNames(instance))
    ensures forall k | k in OwnNames(instance) :: TrackableKey(k) && !FeatureKey(k)
  {
    hide Own;
    hide PlainName;
    hide TrackableKey;
    hide FeatureKey;
    OwnBasesPlain();
    var bases, own := OwnBases(), OwnNames(instance);
    forall i | 0 <= i < 5 ensures own[i] == Own(instance, bases[i]) && TrackableKey(own[i]) && !FeatureKey(own[i]) {
      assert bases[i] in bases;
      OwnNameShape(instance, bases[i]);
    }
    forall i, j | 0 <= i < j < 5 ensures own[i] != own[j] {
      if own[i] == own[j] {
        OwnInjective(instance, bases[i], bases[j]);
      }
    }
  }

  function InstancePrefix(instance: string): string {
    if instance == "" then "" else instance + "."
  }

  /** The annotations as they are spelled on a node. */
  lemma OwnNamesSpelled(instance: string)
    ensures var p := InstancePrefix(instance);
      OwnNames(instance) == [
        p + "nfd.node.kubernetes.io/feature-labels", p + "nfd.node.kubernetes.io/extended-resources",
        p + "nfd.node.kubernetes.io/feature-annotations", p + "nfd.node.kubernetes.io/master.version",
        p + "nfd.node.kubernetes.io/worker.version"]
    ensures var p := InstancePrefix(instance);
      && Own(instance, FEATURE_LABELS) == p + "nfd.node.kubernetes.io/feature-labels"
      && Own(instance, EXTENDED_RESOURCES) == p + "nfd.node.kubernetes.io/extended-resources"
      && Own(instance, FEATURE_ANNOTATIONS) == p + "nfd.node.kubernetes.io/feature-annotations"
  {
    hide Own;
    hide InstancePrefix;
    SpelledLabels(instance);
    SpelledResources(instance);
    SpelledAnnotations(instance);
    SpelledMaster(instance);
    SpelledWorker(instance);
  }

  lemma SpelledLabels(instance: string)
    ensures Own(instance, FEATURE_LABELS) == InstancePrefix(instance) + "nfd.node.kubernetes.io/feature-labels"
  {
    hide Own;
    Spelled(instance, FEATURE_LABELS, "nfd.node.kubernetes.io/feature-labels");
  }

  lemma SpelledResources(instance: string)
    ensures Own(instance, EXTENDED_RESOURCES) == InstancePrefix(instance) + "nfd.node.kubernetes.io/extended-resources"
  {
    hide Own;
    Spelled(instance, EXTENDED_RESOURCES, "nfd.node.kubernetes.io/extended-resources");
  }

  lemma SpelledAnnotations(instance: string)
    ensures Own(instance, FEATURE_ANNOTATIONS)
         == InstancePrefix(instance) + "nfd.node.kubernetes.io/feature-annotations"
  {
    hide Own;
    Spelled(instance, FEATURE_ANNOTATIONS, "nfd.node.kubernetes.io/feature-annotations");
  }

  lemma SpelledMaster(instance: string)
    ensures Own(instance, MASTER_VERSION) == InstancePrefix(instance) + "nfd.node.kubernetes.io/master.version"
  {
    hide Own;
    Spelled(instance, MASTER_VERSION, "nfd.node.kubernetes.io/master.version");
  }

  lemma SpelledWorker(instance: string)
    ensures Own(instance, WORKER_VERSION) == InstancePrefix(instance) + "nfd.node.kubernetes.io/worker.version"
  {
    hide Own;
    Spelled(instance, WORKER_VERSION, "nfd.node.kubernetes.io/worker.version");
  }

  lemma Spelled(instance: string, base: string, whole: string)
    requires whole == "nfd.node.kubernetes.io" + "/" + base
    ensures Own(instance, base) == InstancePrefix(instance) + whole
  {
    if instance != "" {
      assert instance + "." + ANNOTATION_NS + "/" + base == instance + "." + (ANNOTATION_NS + "/" + base);
    }
  }
}
