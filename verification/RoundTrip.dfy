/**
What the decoders make of encoded messages: the round trip through all three
nesting levels, and unknown fields.
*/
module RoundTrip {
  import opened Basics
  import opened Ordering
  import opened Wire
  import opened Messages

  // ----- Round trips, level by level -----

  lemma MapOnto<V>(d: Bytes, i: nat, m: map<Str, V>, enc: V -> seq<byte>,
                   m0: map<Str, V>, zero: V, dec: Bytes -> Result<V, Error>)
    requires At(d, i, EncodeMap(0x0a, m, enc))
    requires forall k | k in m :: Inverts(enc, dec, m[k])
    ensures ParseMap(d, i, m0, zero, dec)
         == ParseMap(d, i + |EncodeMap(0x0a, m, enc)|, m0 + m, zero, dec)
  {
    hide ParseMap;
    hide EncodeEntries;
    hide Inverts;
    hide At;
    hide KeysOf;
    MapPrefix(d, i, KeysOf(m), m, enc, m0, zero, dec);
    OverlayAll(m0, m);
  }

  lemma WholeMap<V>(m: map<Str, V>, enc: V -> seq<byte>, zero: V, dec: Bytes -> Result<V, Error>)
    requires |EncodeMap(0x0a, m, enc)| < TWO63
    requires forall k | k in m :: Inverts(enc, dec, m[k])
    ensures ParseMap(EncodeMap(0x0a, m, enc), 0, map[], zero, dec) == Ok(m)
  {
    hide EncodeMap;
    hide Inverts;
    hide NextField;
    var d: Bytes := EncodeMap(0x0a, m, enc);
    MapOnto(d, 0, m, enc, map[], zero, dec);
    assert map[] + m == m;
  }

  lemma NilInverts(n: Nil)
    ensures Inverts(EncNil, DecNil, n)
  {
    assert n == Nil;
  }

  lemma FlagsInvert(f: FlagFeatureSet)
    ensures Inverts(EncFlags, DecFlags, f)
  {
    hide EncodeMap;
    hide ParseMap;
    if |EncFlags(f)| < TWO63 {
      forall k | k in f.elements ensures Inverts(EncNil, DecNil, f.elements[k]) {
        NilInverts(f.elements[k]);
      }
      WholeMap(f.elements, EncNil, Nil, DecNil);
    }
  }

  lemma AttributesInvert(f: AttributeFeatureSet)
    ensures Inverts(EncAttributes, DecAttributes, f)
  {
    hide EncodeMap;
    hide ParseMap;
    if |EncAttributes(f)| < TWO63 {
      WholeMap<Str>(f.elements, EncString, [], DecString);
    }
  }

  lemma InstanceInverts(f: InstanceFeature)
    ensures Inverts(EncInstance, DecInstance, f)
  {
    hide EncodeMap;
    hide ParseMap;
    if |EncInstance(f)| < TWO63 {
      WholeMap<Str>(f.attributes, EncString, [], DecString);
    }
  }

  lemma InstanceStep(d: Bytes, i: nat, e: InstanceFeature, es0: seq<InstanceFeature>)
    requires At(d, i, [0x0a] + EncodeSpan(EncInstance(e)))
    ensures ParseInstances(d, i, es0)
         == ParseInstances(d, i + |[0x0a] + EncodeSpan(EncInstance(e))|, es0 + [e])
  {
    hide NextField;
    hide EncInstance;
    hide DecInstance;
    hide EncodeSpan;
    hide At;
    FieldInverse(d, i, 1, EncInstance(e), 1);
    InstanceInverts(e);
  }

  /** Decoding encoded instances appends them to those decoded before. */
  lemma {:induction false} InstancesOnto(d: Bytes, i: nat, es: seq<InstanceFeature>, es0: seq<InstanceFeature>)
    requires At(d, i, EncInstanceList(es))
    ensures ParseInstances(d, i, es0) == ParseInstances(d, i + |EncInstanceList(es)|, es0 + es)
    decreases es
  {
    hide ParseInstances;
    hide EncInstance;
    hide EncodeSpan;
    hide At;
    if es == [] {
      assert es0 + es == es0;
    } else {
      var first := [0x0a] + EncodeSpan(EncInstance(es[0]));
      assert EncInstanceList(es) == first + EncInstanceList(es[1..]);
      AtConcat(d, i, first, EncInstanceList(es[1..]));
      InstanceStep(d, i, es[0], es0);
      InstancesOnto(d, i + |first|, es[1..], es0 + [es[0]]);
      assert es0 + [es[0]] + es[1..] == es0 + es;
    }
  }

  lemma InstancesInvert(f: InstanceFeatureSet)
    ensures Inverts(EncInstances, DecInstances, f)
  {
    hide EncInstanceList;
    hide NextField;
    if |EncInstances(f)| < TWO63 {
      var d: Bytes := EncInstances(f);
      InstancesOnto(d, 0, f.elements, []);
      assert [] + f.elements == f.elements;
    }
  }

  // ----- The three maps of Features -----

  lemma {:induction false} FlagsOnto(d: Bytes, i: nat, keys: seq<Str>, m: map<Str, FlagFeatureSet>, f: Features)
    requires Elems(keys) <= m.Keys && At(d, i, EncodeEntries(0x0a, keys, m, EncFlags))
    ensures ParseFeatures(d, i, f)
         == ParseFeatures(d, i + |EncodeEntries(0x0a, keys, m, EncFlags)|, f.(flags := Overlay(f.flags, keys, m)))
    decreases keys
  {
    hide ParseFeatures;
    hide Entry;
    hide At;
    hide EncFlags;
    hide EncodeEntries;
    hide Overlay;
    OverlayStep(f.flags, keys, m);
    if keys == [] {
      NoEntry(0x0a, m, EncFlags);
    } else {
      EntryAt(d, i, 0x0a, keys, m, EncFlags);
      var k := keys[0];
      var post := i + |Entry(0x0a, k, EncFlags(m[k]))|;
      FlagsStep(d, i, k, m[k], f);
      FlagsOnto(d, post, keys[1..], m, f.(flags := f.flags[k := m[k]]));
    }
  }

  lemma FlagsStep(d: Bytes, i: nat, k: Str, v: FlagFeatureSet, f: Features)
    requires At(d, i, Entry(0x0a, k, EncFlags(v)))
    ensures ParseFeatures(d, i, f)
         == ParseFeatures(d, i + |Entry(0x0a, k, EncFlags(v))|, f.(flags := f.flags[k := v]))
  {
    hide NextField;
    hide ParseEntry;
    hide Entry;
    hide EntryBody;
    hide At;
    hide EncFlags;
    hide DecFlags;
    FlagsInvert(v);
    EntryFieldInverse(d, i, 1, 3, k, v, EncFlags, FlagFeatureSet(map[]), DecFlags);
  }

  lemma {:induction false} AttributesOnto(d: Bytes, i: nat, keys: seq<Str>, m: map<Str, AttributeFeatureSet>,
                                          f: Features)
    requires Elems(keys) <= m.Keys && At(d, i, EncodeEntries(0x12, keys, m, EncAttributes))
    ensures ParseFeatures(d, i, f)
         == ParseFeatures(d, i + |EncodeEntries(0x12, keys, m, EncAttributes)|,
                          f.(attributes := Overlay(f.attributes, keys, m)))
    decreases keys
  {
    hide ParseFeatures;
    hide Entry;
    hide At;
    hide EncAttributes;
    hide EncodeEntries;
    hide Overlay;
    OverlayStep(f.attributes, keys, m);
    if keys == [] {
      NoEntry(0x12, m, EncAttributes);
    } else {
      EntryAt(d, i, 0x12, keys, m, EncAttributes);
      var k := keys[0];
      var post := i + |Entry(0x12, k, EncAttributes(m[k]))|;
      AttributesStep(d, i, k, m[k], f);
      AttributesOnto(d, post, keys[1..], m, f.(attributes := f.attributes[k := m[k]]));
    }
  }

  lemma AttributesStep(d: Bytes, i: nat, k: Str, v: AttributeFeatureSet, f: Features)
    requires At(d, i, Entry(0x12, k, EncAttributes(v)))
    ensures ParseFeatures(d, i, f)
         == ParseFeatures(d, i + |Entry(0x12, k, EncAttributes(v))|, f.(attributes := f.attributes[k := v]))
  {
    hide NextField;
    hide ParseEntry;
    hide Entry;
    hide EntryBody;
    hide At;
    hide EncAttributes;
    hide DecAttributes;
    AttributesInvert(v);
    EntryFieldInverse(d, i, 2, 3, k, v, EncAttributes, AttributeFeatureSet(map[]), DecAttributes);
  }

  lemma {:induction false} InstanceSetsOnto(d: Bytes, i: nat, keys: seq<Str>, m: map<Str, InstanceFeatureSet>,
                                            f: Features)
    requires Elems(keys) <= m.Keys && At(d, i, EncodeEntries(0x1a, keys, m, EncInstances))
    ensures ParseFeatures(d, i, f)
         == ParseFeatures(d, i + |EncodeEntries(0x1a, keys, m, EncInstances)|,
                          f.(instances := Overlay(f.instances, keys, m)))
    decreases keys
  {
    hide ParseFeatures;
    hide Entry;
    hide At;
    hide EncInstances;
    hide EncodeEntries;
    hide Overlay;
    OverlayStep(f.instances, keys, m);
    if keys == [] {
      NoEntry(0x1a, m, EncInstances);
    } else {
      EntryAt(d, i, 0x1a, keys, m, EncInstances);
      var k := keys[0];
      var post := i + |Entry(0x1a, k, EncInstances(m[k]))|;
      InstanceSetsStep(d, i, k, m[k], f);
      InstanceSetsOnto(d, post, keys[1..], m, f.(instances := f.instances[k := m[k]]));
    }
  }

  lemma InstanceSetsStep(d: Bytes, i: nat, k: Str, v: InstanceFeatureSet, f: Features)
    requires At(d, i, Entry(0x1a, k, EncInstances(v)))
    ensures ParseFeatures(d, i, f)
         == ParseFeatures(d, i + |Entry(0x1a, k, EncInstances(v))|, f.(instances := f.instances[k := v]))
  {
    hide NextField;
    hide ParseEntry;
    hide Entry;
    hide EntryBody;
    hide At;
    hide EncInstances;
    hide DecInstances;
    InstancesInvert(v);
    EntryFieldInverse(d, i, 3, 3, k, v, EncInstances, InstanceFeatureSet([]), DecInstances);
  }

  /** What decoding g on top of f yields: whole feature sets are replaced. */
  function Replace(f: Features, g: Features): Features {
    Features(f.flags + g.flags, f.attributes + g.attributes, f.instances + g.instances)
  }

  lemma FeaturesOnto(d: Bytes, i: nat, g: Features, f: Features)
    requires At(d, i, EncFeatures(g))
    ensures ParseFeatures(d, i, f) == ParseFeatures(d, i + |EncFeatures(g)|, Replace(f, g))
  {
    hide ParseFeatures;
    hide EncodeEntries;
    hide At;
    hide KeysOf;
    var e1 := EncodeMap(0x0a, g.flags, EncFlags);
    var e2 := EncodeMap(0x12, g.attributes, EncAttributes);
    var e3 := EncodeMap(0x1a, g.instances, EncInstances);
    AtConcat(d, i, e1 + e2, e3);
    AtConcat(d, i, e1, e2);
    FlagsOnto(d, i, KeysOf(g.flags), g.flags, f);
    OverlayAll(f.flags, g.flags);
    var f1 := f.(flags := f.flags + g.flags);
    AttributesOnto(d, i + |e1|, KeysOf(g.attributes), g.attributes, f1);
    OverlayAll(f.attributes, g.attributes);
    var f2 := f1.(attributes := f.attributes + g.attributes);
    InstanceSetsOnto(d, i + |e1| + |e2|, KeysOf(g.instances), g.instances, f2);
    OverlayAll(f.instances, g.instances);
  }

  lemma DecodeEnd(d: Bytes, f: Features)
    ensures ParseFeatures(d, |d|, f) == Ok(f)
  {
  }

  /** Unmarshalling the marshalled bytes returns the features. */
  lemma FeaturesRoundTrip(f: Features)
    requires |EncFeatures(f)| < TWO63
    ensures DecFeatures(EncFeatures(f)) == Ok(f)
  {
    hide ParseFeatures;
    hide EncFeatures;
    var d: Bytes := EncFeatures(f);
    FeaturesOnto(d, 0, f, NO_FEATURES);
    DecodeEnd(d, f);
    assert Replace(NO_FEATURES, f) == f;
  }

  /** Hence no two features values share an encoding. */
  lemma EncodingInjective(f: Features, g: Features)
    requires |EncFeatures(f)| < TWO63
    requires EncFeatures(f) == EncFeatures(g)
    ensures f == g
  {
    hide EncFeatures;
    hide DecFeatures;
    FeaturesRoundTrip(f);
    FeaturesRoundTrip(g);
  }

  // ----- Unknown fields -----

  /** A field whose number is past those of the message is passed over. */
  lemma UnknownField(d: Bytes, i: nat, u: Field, last: int)
    requires Legal(u) && u.num > last >= 0 && At(d, i, EncodeField(u))
    ensures NextField(d, i, last) == Ok(Skipped(i + |EncodeField(u)|))
  {
    hide SkipFrom;
    hide EncodeVarint;
    hide ReadVarint;
    hide ReadSpan;
    hide EncodeAll;
    hide EncodeSpan;
    var rest: Bytes := d[i..];
    assert At(rest, 0, EncodeField(u));
    SkipsField(rest, 0, u, 0);
    var wireType, tail := UnknownTag(u);
    SkipTag(d, i, u.num, wireType, tail);
    TagFieldNum(u.num, wireType);
  }

  /** Every field starts with its number and a wire type that is not end-group. */
  lemma UnknownTag(u: Field) returns (wireType: nat, tail: seq<byte>)
    requires Legal(u)
    ensures wireType < 8 && wireType != 4
    ensures EncodeField(u) == EncodeVarint(8 * u.num + wireType) + tail
  {
    match u
    case VarintField(n, v) => return 0, EncodeVarint(v);
    case Fixed64Field(n, b) => return 1, b;
    case SpanField(n, b) => return 2, EncodeSpan(b);
    case GroupField(n, fs) => return 3, EncodeAll(fs) + EncodeVarint(8 * n + 4);
    case Fixed32Field(n, b) => return 5, b;
  }

  lemma TagFieldNum(num: nat, wireType: nat)
    requires num < TWO31 && wireType < 8
    ensures FieldNum(8 * num + wireType) == num && WireType(8 * num + wireType) == wireType
  {
  }

  /** Unknown fields between known ones change nothing in what is decoded. */
  lemma UnknownFieldIgnored(d: Bytes, i: nat, u: Field, f: Features)
    requires Legal(u) && u.num > 3 && At(d, i, EncodeField(u))
    ensures ParseFeatures(d, i, f) == ParseFeatures(d, i + |EncodeField(u)|, f)
  {
    hide NextField;
    hide EncodeField;
    hide PutField;
    hide Legal;
    UnknownField(d, i, u, 3);
  }

  lemma UnknownFieldIgnoredInMap<V>(d: Bytes, i: nat, u: Field, m: map<Str, V>, zero: V, dec: Bytes -> Result<V, Error>)
    requires Legal(u) && u.num > 1 && At(d, i, EncodeField(u))
    ensures ParseMap(d, i, m, zero, dec) == ParseMap(d, i + |EncodeField(u)|, m, zero, dec)
  {
    hide NextField;
    hide EncodeField;
    hide ParseEntry;
    hide Legal;
    UnknownField(d, i, u, 1);
  }

  // ----- The bytes themselves -----

  lemma OneKey<V>(tag: byte, k: Str, v: V, enc: V -> seq<byte>)
    ensures EncodeMap(tag, map[k := v], enc) == Entry(tag, k, enc(v))
  {
    var m := map[k := v];
    StrOrder();
    assert Elems([k]) == m.Keys && Sorted(LessStr, [k]);
    SortedUnique(LessStr, KeysOf(m), [k]);
    assert [k][1..] == [];
    assert EncodeEntries(tag, [k], m, enc) == Entry(tag, k, enc(v)) + EncodeEntries(tag, [], m, enc);
  }

  lemma NoKey<V>(tag: byte, enc: V -> seq<byte>)
    ensures EncodeMap(tag, map[], enc) == []
  {
    ElemsEmpty(KeysOf<V>(map[]));
  }

  /** Numbers below 128 take one byte; above, seven bits at a time, lowest first. */
  lemma VarintBytes()
    ensures EncodeVarint(0) == [0x00] && EncodeVarint(127) == [0x7f]
    ensures EncodeVarint(128) == [0x80, 0x01] && EncodeVarint(300) == [0xac, 0x02]
  {
  }

  /** Flag sets are field 1 of Features, attribute sets field 2 and instance sets field 3. */
  lemma FeatureSetBytes(k: Str, f: FlagFeatureSet, a: AttributeFeatureSet, i: InstanceFeatureSet)
    ensures EncFeatures(Features(map[k := f], map[], map[]))
         == [0x0a] + EncodeSpan([0x0a] + EncodeSpan(k) + ([0x12] + EncodeSpan(EncFlags(f))))
    ensures EncFeatures(Features(map[], map[k := a], map[]))
         == [0x12] + EncodeSpan([0x0a] + EncodeSpan(k) + ([0x12] + EncodeSpan(EncAttributes(a))))
    ensures EncFeatures(Features(map[], map[], map[k := i]))
         == [0x1a] + EncodeSpan([0x0a] + EncodeSpan(k) + ([0x12] + EncodeSpan(EncInstances(i))))
  {
    hide EncodeMap;
    hide EncodeSpan;
    hide EncFlags;
    hide EncAttributes;
    hide EncInstances;
    OneKey(0x0a, k, f, EncFlags);
    OneKey(0x12, k, a, EncAttributes);
    OneKey(0x1a, k, i, EncInstances);
    NoKey(0x0a, EncFlags);
    NoKey(0x12, EncAttributes);
    NoKey(0x1a, EncInstances);
  }

  lemma EmptySpan()
    ensures EncodeSpan([]) == [0x00]
  {
  }

  /** The elements of a set are its field 1; a flag has an empty message as its value. */
  lemma ElementBytes(k: Str, v: Str, e: InstanceFeature)
    ensures EncFlags(FlagFeatureSet(map[k := Nil])) == [0x0a] + EncodeSpan([0x0a] + EncodeSpan(k) + ([0x12] + [0x00]))
    ensures EncAttributes(AttributeFeatureSet(map[k := v]))
         == [0x0a] + EncodeSpan([0x0a] + EncodeSpan(k) + ([0x12] + EncodeSpan(v)))
    ensures EncInstance(InstanceFeature(map[k := v]))
         == [0x0a] + EncodeSpan([0x0a] + EncodeSpan(k) + ([0x12] + EncodeSpan(v)))
    ensures EncInstances(InstanceFeatureSet([e])) == [0x0a] + EncodeSpan(EncInstance(e))
  {
    hide EncodeMap;
    hide EncodeSpan;
    OneKey(0x0a, k, Nil, EncNil);
    OneKey<Str>(0x0a, k, v, EncString);
    EmptySpan();
    assert [e][1..] == [] && EncInstanceList([]) == [];
  }

  /** Flags come first, then attributes, then instances. */
  lemma KindsInOrder(f: Features)
    ensures EncFeatures(f) == EncFeatures(Features(f.flags, map[], map[]))
      + EncFeatures(Features(map[], f.attributes, map[])) + EncFeatures(Features(map[], map[], f.instances))
  {
    hide EncodeMap;
    NoKey(0x0a, EncFlags);
    NoKey(0x12, EncAttributes);
    NoKey(0x1a, EncInstances);
  }

  /** The entry with the least key comes first, and then the others. */
  lemma LeastKeyFirst<V>(tag: byte, m: map<Str, V>, k: Str, enc: V -> seq<byte>)
    requires k in m && forall j | j in m && j != k :: LessStr(k, j)
    ensures EncodeMap(tag, m, enc) == EncodeMap(tag, map[k := m[k]], enc) + EncodeMap(tag, m - {k}, enc)
  {
    hide LessStr;
    hide Entry;
    StrOrder();
    var rest := m - {k};
    var keys := [k] + KeysOf(rest);
    forall i, j | 0 <= i < j < |keys| ensures LessStr(keys[i], keys[j]) {
      assert keys[j] == KeysOf(rest)[j - 1] && keys[j] in Elems(KeysOf(rest));
    }
    assert Elems(keys) == {k} + Elems(KeysOf(rest)) == m.Keys;
    SortedUnique(LessStr, keys, KeysOf(m));
    assert keys[1..] == KeysOf(rest) && keys[0] == k;
    EntriesAgree(tag, KeysOf(rest), m, rest, enc);
    OneKey(tag, k, m[k], enc);
  }

  lemma {:induction false} EntriesAgree<V>(tag: byte, keys: seq<Str>, m: map<Str, V>, m': map<Str, V>,
                                           enc: V -> seq<byte>)
    requires Elems(keys) <= m.Keys && Elems(keys) <= m'.Keys && forall k | k in m && k in m' :: m[k] == m'[k]
    ensures EncodeEntries(tag, keys, m, enc) == EncodeEntries(tag, keys, m', enc)
  {
    hide Entry;
    if keys != [] {
      assert keys[0] in Elems(keys) && Elems(keys[1..]) <= Elems(keys);
      EntriesAgree(tag, keys[1..], m, m', enc);
    }
  }

  // ----- What is refused -----

  /** All bytes from i to j ask for another one. */
  predicate Continues(d: Bytes, i: nat, j: nat) {
    j <= |d| && forall k | i <= k < j :: d[k] >= 128
  }

  /** A number is refused exactly if it goes on for ten bytes, or up to the end of the data. */
  lemma VarintRefused(d: Bytes, i: nat)
    requires i <= |d|
    ensures ReadVarint(d, i) == Err(IntOverflow) <==> Continues(d, i, i + 10)
    ensures ReadVarint(d, i) == Err(UnexpectedEOF) <==> |d| < i + 10 && Continues(d, i, |d|)
    ensures ReadVarint(d, i).Err? ==> ReadVarint(d, i).error in {IntOverflow, UnexpectedEOF}
  {
    hide ReadGroups;
    GroupsRefused(d, i, 0);
  }

  lemma {:induction false} GroupsRefused(d: Bytes, i: nat, k: nat)
    requires i <= |d| && k <= 10
    ensures ReadGroups(d, i, 7 * k) == Err(IntOverflow) <==> Continues(d, i, i + 10 - k)
    ensures ReadGroups(d, i, 7 * k) == Err(UnexpectedEOF) <==> |d| < i + 10 - k && Continues(d, i, |d|)
    ensures ReadGroups(d, i, 7 * k).Err? ==> ReadGroups(d, i, 7 * k).error in {IntOverflow, UnexpectedEOF}
    decreases 10 - k
  {
    if k < 10 && i < |d| && d[i] >= 128 {
      GroupsRefused(d, i + 1, k + 1);
      assert Continues(d, i, i + 10 - k) <==> Continues(d, i + 1, i + 10 - k);
      assert Continues(d, i, |d|) <==> Continues(d, i + 1, |d|);
      assert 7 * k + 7 == 7 * (k + 1);
    } else if k < 10 && i < |d| {
      assert !(d[i] >= 128);
    }
  }

  /** A field of Features with a wrong tag: an end of a group, number 0, or a known number that is not a message. */
  lemma TagsRefused(d: Bytes, i: nat, num: nat, wireType: nat, rest: seq<byte>, f: Features)
    requires num < TWO31 && wireType < 8 && At(d, i, EncodeVarint(8 * num + wireType) + rest)
    ensures wireType == 4 ==> ParseFeatures(d, i, f) == Err(EndGroupForNonGroup)
    ensures wireType != 4 && num == 0 ==> ParseFeatures(d, i, f) == Err(IllegalTag)
    ensures wireType !in {2, 4} && 1 <= num <= 3 ==> ParseFeatures(d, i, f) == Err(WrongWireType)
    ensures wireType in {6, 7} && num > 3 ==> ParseFeatures(d, i, f) == Err(IllegalWireType)
  {
    hide ReadVarint;
    hide EncodeVarint;
    hide PutField;
    SkipTag(d, i, num, wireType, rest);
    TagFieldNum(num, wireType);
    TagThere(num, wireType);
    if wireType in {6, 7} && num > 3 {
      var tail: Bytes := d[i..];
      assert At(tail, 0, EncodeVarint(8 * num + wireType) + rest);
      SkipTag(tail, 0, num, wireType, rest);
    }
  }

  lemma TagThere(num: nat, wireType: nat)
    ensures |EncodeVarint(8 * num + wireType)| > 0
  {
  }

  /** A length that runs past the end of the data, or that is negative as an int. */
  lemma LengthsRefused(d: Bytes, i: nat, n: nat)
    requires n < TWO64 && At(d, i, EncodeVarint(n))
    ensures n >= TWO63 ==> ReadSpan(d, i) == Err(InvalidLength)
    ensures n < TWO63 && i + |EncodeVarint(n)| + n >= TWO63 ==> ReadSpan(d, i) == Err(InvalidLength)
    ensures |d| < i + |EncodeVarint(n)| + n < TWO63 ==> ReadSpan(d, i) == Err(UnexpectedEOF)
    ensures i + |EncodeVarint(n)| + n <= |d| ==> ReadSpan(d, i).Ok?
  {
    hide ReadVarint;
    hide EncodeVarint;
    VarintInverse(d, i, n);
  }
}
