/**
MergeInto of pkg/apis/nfd/v1alpha1/feature.go, and how it relates to decoding
two encodings one after the other.
*/
module Merge {
  import opened Basics
  import opened Ordering
  import opened Wire
  import opened Messages
  import opened RoundTrip

  function MergeFlags(out: FlagFeatureSet, src: FlagFeatureSet): FlagFeatureSet {
    FlagFeatureSet(out.elements + src.elements)
  }

  function MergeAttributes(out: AttributeFeatureSet, src: AttributeFeatureSet): AttributeFeatureSet {
    AttributeFeatureSet(out.elements + src.elements)
  }

  function MergeInstances(out: InstanceFeatureSet, src: InstanceFeatureSet): InstanceFeatureSet {
    InstanceFeatureSet(out.elements + src.elements)
  }

  /** Per-key merging of two maps of feature sets. */
  function MergeSets<V>(out: map<Str, V>, src: map<Str, V>, zero: V, merge: (V, V) -> V): map<Str, V> {
    map k | k in out.Keys + src.Keys ::
      if k in src then merge(if k in out then out[k] else zero, src[k]) else out[k]
  }

  function MergeFeatures(out: Features, src: Features): Features {
    Features(
      MergeSets(out.flags, src.flags, FlagFeatureSet(map[]), MergeFlags),
      MergeSets(out.attributes, src.attributes, AttributeFeatureSet(map[]), MergeAttributes),
      MergeSets(out.instances, src.instances, InstanceFeatureSet([]), MergeInstances))
  }

  /** The merge loop, in whatever order the source map yields its keys. */
  method MergeSetsInto<V>(out: map<Str, V>, src: map<Str, V>, zero: V, merge: (V, V) -> V) returns (r: map<Str, V>)
    ensures r == MergeSets(out, src, zero, merge)
  {
    r := out;
    var todo := src.Keys;
    while todo != {}
      invariant todo <= src.Keys
      invariant r.Keys == out.Keys + (src.Keys - todo)
      invariant forall k | k in r ::
        r[k] == if k in src && k !in todo then merge(if k in out then out[k] else zero, src[k]) else out[k]
      decreases todo
    {
      var k :| k in todo;
      var outVal := if k in r then r[k] else zero;
      r := r[k := merge(outVal, src[k])];
      todo := todo - {k};
    }
  }

  method MergeFeaturesInto(out: Features, src: Features) returns (r: Features)
    ensures r == MergeFeatures(out, src)
  {
    var flags := MergeSetsInto(out.flags, src.flags, FlagFeatureSet(map[]), MergeFlags);
    var attributes := MergeSetsInto(out.attributes, src.attributes, AttributeFeatureSet(map[]), MergeAttributes);
    var instances := MergeSetsInto(out.instances, src.instances, InstanceFeatureSet([]), MergeInstances);
    r := Features(flags, attributes, instances);
  }

  // ----- Merging in place -----

  /** The elements of one feature set, which a Go map or slice refers to. */
  class Elements<S> {
    var value: S

    constructor (s: S)
      ensures value == s
    {
      value := s;
    }
  }

  /** The feature sets of one kind. */
  class FeatureSets<S> {
    var sets: map<Str, Elements<S>>

    ghost predicate Valid()
      reads this
    {
      forall j, k | j in sets && k in sets && j != k :: sets[j] != sets[k]
    }

    function Value(): map<Str, S>
      reads this, sets.Values
    {
      map k | k in sets :: sets[k].value
    }

    /** One key of the merge: a set that is missing is made, and never taken over from the source. */
    method MergeOne(k: Str, src: S, zero: S, merge: (S, S) -> S)
      requires Valid()
      modifies this, sets.Values
      ensures Valid() && k in sets && sets == old(sets)[k := sets[k]]
      ensures k in old(sets) ==> sets == old(sets)
      ensures k !in old(sets) ==> fresh(sets[k])
      ensures Value() == old(Value())[k := merge(if k in old(sets) then old(sets[k].value) else zero, src)]
    {
      assert forall j | j in sets :: sets[j] in sets.Values;
      if k in sets {
        sets[k].value := merge(sets[k].value, src);
      } else {
        var made := new Elements(merge(zero, src));
        sets := sets[k := made];
      }
    }

    /** Merges the source in, in whatever order it yields its keys; the two share nothing afterwards either. */
    method MergeFrom(src: FeatureSets<S>, zero: S, merge: (S, S) -> S)
      requires Valid() && src != this && sets.Values !! src.sets.Values
      modifies this, sets.Values
      ensures Valid() && Value() == MergeSets(old(Value()), src.Value(), zero, merge)
      ensures sets.Values !! src.sets.Values && fresh(sets.Values - old(sets.Values))
      ensures src.sets == old(src.sets) && src.Value() == old(src.Value())
    {
      hide MergeSets;
      hide Only;
      ghost var out, from := Value(), src.Value();
      MergeNone(out, from, zero, merge);
      assert from.Keys - src.sets.Keys == {};
      var todo := src.sets.Keys;
      while todo != {}
        invariant todo <= src.sets.Keys && Valid()
        invariant src.sets == old(src.sets) && src.Value() == from
        invariant fresh(sets.Values - old(sets.Values)) && sets.Values !! src.sets.Values
        invariant Value() == MergeSets(out, Only(from, from.Keys - todo), zero, merge)
        decreases todo
      {
        ghost var some := Any(todo);
        var k :| k in todo;
        MergeNext(src, k, zero, merge, out, from.Keys - todo);
        assert from.Keys - todo + {k} == from.Keys - (todo - {k});
        todo := todo - {k};
      }
      assert from.Keys - {} == from.Keys;
    }

    /** One more key of the source, after those that are done. */
    method MergeNext(src: FeatureSets<S>, k: Str, zero: S, merge: (S, S) -> S, ghost out: map<Str, S>,
                     ghost done: set<Str>)
      requires Valid() && src != this && sets.Values !! src.sets.Values && k in src.sets && k !in done
      requires Value() == MergeSets(out, Only(src.Value(), done), zero, merge)
      modifies this, sets.Values
      ensures Valid() && Value() == MergeSets(out, Only(src.Value(), done + {k}), zero, merge)
      ensures sets.Values !! src.sets.Values && fresh(sets.Values - old(sets.Values))
      ensures src.sets == old(src.sets) && src.Value() == old(src.Value())
    {
      hide MergeSets;
      hide Only;
      assert src.sets[k] in src.sets.Values;
      MergeMore(out, src.Value(), done, k, zero, merge);
      assert k in sets <==> k in Value();
      MergeOne(k, src.sets[k].value, zero, merge);
    }
  }

  /** The listed part of a map. */
  ghost function Only<V>(m: map<Str, V>, keys: set<Str>): map<Str, V> {
    map k | k in m && k in keys :: m[k]
  }

  lemma MergeNone<V>(out: map<Str, V>, src: map<Str, V>, zero: V, merge: (V, V) -> V)
    ensures MergeSets(out, Only(src, {}), zero, merge) == out && Only(src, src.Keys) == src
  {
  }

  lemma MergeMore<V>(out: map<Str, V>, src: map<Str, V>, done: set<Str>, k: Str, zero: V, merge: (V, V) -> V)
    requires k in src && k !in done
    ensures MergeSets(out, Only(src, done + {k}), zero, merge)
         == MergeSets(out, Only(src, done), zero, merge)[k := merge(if k in out then out[k] else zero, src[k])]
    ensures k in MergeSets(out, Only(src, done), zero, merge) <==> k in out
    ensures k in out ==> MergeSets(out, Only(src, done), zero, merge)[k] == out[k]
  {
  }

  // ----- Concatenated encodings -----

  lemma ConcatAt(a: seq<byte>, b: seq<byte>)
    ensures At(a + b, 0, a) && At(a + b, |a|, b)
  {
  }

  lemma ConcatMaps<V>(a: map<Str, V>, b: map<Str, V>, enc: V -> seq<byte>, zero: V, dec: Bytes -> Result<V, Error>)
    requires |EncodeMap(0x0a, a, enc) + EncodeMap(0x0a, b, enc)| < TWO63
    requires forall k | k in a :: Inverts(enc, dec, a[k])
    requires forall k | k in b :: Inverts(enc, dec, b[k])
    ensures ParseMap(EncodeMap(0x0a, a, enc) + EncodeMap(0x0a, b, enc), 0, map[], zero, dec) == Ok(a + b)
  {
    hide EncodeMap;
    hide Inverts;
    hide NextField;
    hide At;
    var e1, e2 := EncodeMap(0x0a, a, enc), EncodeMap(0x0a, b, enc);
    var d: Bytes := e1 + e2;
    ConcatAt(e1, e2);
    MapOnto(d, 0, a, enc, map[], zero, dec);
    MapOnto(d, |e1|, b, enc, map[] + a, zero, dec);
    assert map[] + a == a;
  }

  /** Decoding two concatenated encodings merges the second set into the first. */
  lemma ConcatAttributes(a: AttributeFeatureSet, b: AttributeFeatureSet)
    requires |EncAttributes(a) + EncAttributes(b)| < TWO63
    ensures DecAttributes(EncAttributes(a) + EncAttributes(b)) == Ok(MergeAttributes(a, b))
  {
    hide EncodeMap;
    hide ParseMap;
    ConcatMaps<Str>(a.elements, b.elements, EncString, [], DecString);
  }

  lemma ConcatFlags(a: FlagFeatureSet, b: FlagFeatureSet)
    requires |EncFlags(a) + EncFlags(b)| < TWO63
    ensures DecFlags(EncFlags(a) + EncFlags(b)) == Ok(MergeFlags(a, b))
  {
    hide EncodeMap;
    hide ParseMap;
    forall n: Nil ensures Inverts(EncNil, DecNil, n) { NilInverts(n); }
    ConcatMaps(a.elements, b.elements, EncNil, Nil, DecNil);
  }

  lemma ConcatInstances(a: InstanceFeatureSet, b: InstanceFeatureSet)
    requires |EncInstances(a) + EncInstances(b)| < TWO63
    ensures DecInstances(EncInstances(a) + EncInstances(b)) == Ok(MergeInstances(a, b))
  {
    hide EncInstanceList;
    hide NextField;
    hide At;
    var d: Bytes := EncInstances(a) + EncInstances(b);
    ConcatAt(EncInstances(a), EncInstances(b));
    InstancesOnto(d, 0, a.elements, []);
    InstancesOnto(d, |EncInstances(a)|, b.elements, [] + a.elements);
    assert [] + a.elements + b.elements == a.elements + b.elements;
  }

  /** One level up the decoder replaces whole feature sets instead. */
  lemma ConcatFeatures(a: Features, b: Features)
    requires |EncFeatures(a) + EncFeatures(b)| < TWO63
    ensures DecFeatures(EncFeatures(a) + EncFeatures(b)) == Ok(Replace(a, b))
  {
    hide EncFeatures;
    hide ParseFeatures;
    hide At;
    var d: Bytes := EncFeatures(a) + EncFeatures(b);
    ConcatAt(EncFeatures(a), EncFeatures(b));
    FeaturesOnto(d, 0, a, NO_FEATURES);
    FeaturesOnto(d, |EncFeatures(a)|, b, Replace(NO_FEATURES, a));
    DecodeEnd(d, Replace(Replace(NO_FEATURES, a), b));
    assert Replace(NO_FEATURES, a) == a;
  }

  /** Nothing in a set of the first value is missing from the same set of the second. */
  ghost predicate Subsumed(a: Features, b: Features) {
    && (forall k | k in a.flags && k in b.flags :: a.flags[k].elements.Keys <= b.flags[k].elements.Keys)
    && (forall k | k in a.attributes && k in b.attributes ::
          a.attributes[k].elements.Keys <= b.attributes[k].elements.Keys)
    && (forall k | k in a.instances && k in b.instances :: a.instances[k].elements == [])
  }

  /** For whole Features, concatenation is MergeInto exactly when no shared set loses an element. */
  lemma ConcatFeaturesIsMerge(a: Features, b: Features)
    requires |EncFeatures(a) + EncFeatures(b)| < TWO63
    ensures DecFeatures(EncFeatures(a) + EncFeatures(b)) == Ok(MergeFeatures(a, b)) <==> Subsumed(a, b)
  {
    hide EncFeatures;
    hide DecFeatures;
    ConcatFeatures(a, b);
    FlagsMergeIsReplace(a.flags, b.flags);
    AttributesMergeIsReplace(a.attributes, b.attributes);
    InstancesMergeIsReplace(a.instances, b.instances);
  }

  lemma FlagsMergeIsReplace(a: map<Str, FlagFeatureSet>, b: map<Str, FlagFeatureSet>)
    ensures MergeSets(a, b, FlagFeatureSet(map[]), MergeFlags) == a + b
       <==> forall k | k in a && k in b :: a[k].elements.Keys <= b[k].elements.Keys
  {
    var m := MergeSets(a, b, FlagFeatureSet(map[]), MergeFlags);
    forall k | k in a && k in b ensures m[k] == b[k] <==> a[k].elements.Keys <= b[k].elements.Keys {
      OverlaySame(a[k].elements, b[k].elements);
    }
    forall k | k in b && k !in a ensures m[k] == b[k] { OverlaySame(map[], b[k].elements); }
    SameAsOverlay(m, a, b);
  }

  lemma AttributesMergeIsReplace(a: map<Str, AttributeFeatureSet>, b: map<Str, AttributeFeatureSet>)
    ensures MergeSets(a, b, AttributeFeatureSet(map[]), MergeAttributes) == a + b
       <==> forall k | k in a && k in b :: a[k].elements.Keys <= b[k].elements.Keys
  {
    var m := MergeSets(a, b, AttributeFeatureSet(map[]), MergeAttributes);
    forall k | k in a && k in b ensures m[k] == b[k] <==> a[k].elements.Keys <= b[k].elements.Keys {
      OverlaySame(a[k].elements, b[k].elements);
    }
    forall k | k in b && k !in a ensures m[k] == b[k] { OverlaySame(map[], b[k].elements); }
    SameAsOverlay(m, a, b);
  }

  lemma InstancesMergeIsReplace(a: map<Str, InstanceFeatureSet>, b: map<Str, InstanceFeatureSet>)
    ensures MergeSets(a, b, InstanceFeatureSet([]), MergeInstances) == a + b
       <==> forall k | k in a && k in b :: a[k].elements == []
  {
    var m := MergeSets(a, b, InstanceFeatureSet([]), MergeInstances);
    forall k | k in a && k in b ensures m[k] == b[k] <==> a[k].elements == [] {
      assert m[k].elements == a[k].elements + b[k].elements;
      if a[k].elements != [] {
        assert |m[k].elements| > |b[k].elements|;
      } else {
        assert [] + b[k].elements == b[k].elements;
      }
    }
    forall k | k in b && k !in a ensures m[k] == b[k] { assert [] + b[k].elements == b[k].elements; }
    SameAsOverlay(m, a, b);
  }

  lemma OverlaySame<K, V>(x: map<K, V>, y: map<K, V>)
    ensures x + y == y <==> x.Keys <= y.Keys
  {
    assert (x + y).Keys == x.Keys + y.Keys;
    if x.Keys <= y.Keys {
      assert x + y == y;
    }
  }

  lemma SameAsOverlay<V>(m: map<Str, V>, a: map<Str, V>, b: map<Str, V>)
    requires m.Keys == a.Keys + b.Keys
    requires forall k | k in a && k !in b :: m[k] == a[k]
    ensures m == a + b <==> forall k | k in b :: m[k] == b[k]
  {
    if forall k | k in b :: m[k] == b[k] {
      assert m == a + b;
    }
  }

  /** Features with a single flag set, and how short they are when encoded. */
  lemma ShortFlags(k: Str, f: FlagFeatureSet)
    requires |k| + |EncFlags(f)| < 100
    ensures |EncFeatures(Features(map[k := f], map[], map[]))| < 200
  {
    hide EncodeMap;
    OneKey(0x0a, k, f, EncFlags);
    NoKey(0x12, EncAttributes);
    NoKey(0x1a, EncInstances);
  }

  const SET_NAME: Str := [99]
  const MEMBER: Str := [1]
  const WITH_MEMBER := Features(map[SET_NAME := FlagFeatureSet(map[MEMBER := Nil])], map[], map[])
  const WITHOUT_MEMBER := Features(map[SET_NAME := FlagFeatureSet(map[])], map[], map[])

  /** Concatenation does lose elements: a flag set that first has a member and then none is decoded without it. */
  lemma ConcatFeaturesLosesElements()
    ensures |EncFeatures(WITH_MEMBER) + EncFeatures(WITHOUT_MEMBER)| < TWO63
    ensures DecFeatures(EncFeatures(WITH_MEMBER) + EncFeatures(WITHOUT_MEMBER)) == Ok(WITHOUT_MEMBER)
    ensures MergeFeatures(WITH_MEMBER, WITHOUT_MEMBER) == WITH_MEMBER != WITHOUT_MEMBER
  {
    hide EncFeatures;
    hide DecFeatures;
    hide EncodeMap;
    OneKey(0x0a, MEMBER, Nil, EncNil);
    NoKey(0x0a, EncNil);
    ShortFlags(SET_NAME, FlagFeatureSet(map[MEMBER := Nil]));
    ShortFlags(SET_NAME, FlagFeatureSet(map[]));
    ConcatFeatures(WITH_MEMBER, WITHOUT_MEMBER);
    assert WITH_MEMBER.flags + WITHOUT_MEMBER.flags == WITHOUT_MEMBER.flags;
    assert MEMBER in WITH_MEMBER.flags[SET_NAME].elements;
    assert WITH_MEMBER.flags[SET_NAME].elements + map[] == WITH_MEMBER.flags[SET_NAME].elements;
    assert MergeFeatures(WITH_MEMBER, WITHOUT_MEMBER).flags == WITH_MEMBER.flags;
  }
}
