/**
The feature messages of pkg/apis/nfd/v1alpha1, their canonical encoding and
what the generated decoders compute. A nil Go map and an empty one are the same
value here.
*/
module Messages {
  import opened Basics
  import opened Ordering
  import opened Wire

  /** A Go string. */
  type Str = Bytes

  datatype Nil = Nil
  datatype FlagFeatureSet = FlagFeatureSet(elements: map<Str, Nil>)
  datatype AttributeFeatureSet = AttributeFeatureSet(elements: map<Str, Str>)
  datatype InstanceFeature = InstanceFeature(attributes: map<Str, Str>)
  datatype InstanceFeatureSet = InstanceFeatureSet(elements: seq<InstanceFeature>)
  datatype Features = Features(
    flags: map<Str, FlagFeatureSet>,
    attributes: map<Str, AttributeFeatureSet>,
    instances: map<Str, InstanceFeatureSet>)

  // ----- Key order -----

  predicate LessByte(a: byte, b: byte) {
    a < b
  }

  predicate LessStr(a: Str, b: Str) {
    LexLess(LessByte, a, b)
  }

  lemma StrOrder()
    ensures StrictTotal(LessStr)
  {
    assert StrictTotal(LessByte);
    forall a: Str ensures !LessStr(a, a) { LexIrreflexive(LessByte, a); }
    forall a: Str, b: Str, c: Str | LessStr(a, b) && LessStr(b, c) ensures LessStr(a, c) {
      LexTransitive(LessByte, a, b, c);
    }
    forall a: Str, b: Str ensures a == b || LessStr(a, b) || LessStr(b, a) { LexTotal(LessByte, a, b); }
  }

  /** The keys of a map in the order in which they are marshalled. */
  ghost function KeysOf<V>(m: map<Str, V>): (ks: seq<Str>)
    ensures Sorted(LessStr, ks) && Elems(ks) == m.Keys
  {
    StrOrder();
    SortedKeys(LessStr, m.Keys)
  }

  // ----- Encoding -----

  function EntryBody(key: Str, value: seq<byte>): seq<byte> {
    [0x0a] + EncodeSpan(key) + ([0x12] + EncodeSpan(value))
  }

  function Entry(tag: byte, key: Str, value: seq<byte>): seq<byte> {
    [tag] + EncodeSpan(EntryBody(key, value))
  }

  ghost function EncodeEntries<V>(tag: byte, keys: seq<Str>, m: map<Str, V>, enc: V -> seq<byte>): seq<byte>
    requires Elems(keys) <= m.Keys
  {
    if keys == [] then []
    else
      assert keys[0] in Elems(keys);
      Entry(tag, keys[0], enc(m[keys[0]])) + EncodeEntries(tag, keys[1..], m, enc)
  }

  ghost function EncodeMap<V>(tag: byte, m: map<Str, V>, enc: V -> seq<byte>): seq<byte> {
    EncodeEntries(tag, KeysOf(m), m, enc)
  }

  function EncString(s: Str): seq<byte> { s }

  function EncNil(n: Nil): seq<byte> { [] }

  ghost function EncFlags(f: FlagFeatureSet): seq<byte> {
    EncodeMap(0x0a, f.elements, EncNil)
  }

  ghost function EncAttributes(f: AttributeFeatureSet): seq<byte> {
    EncodeMap(0x0a, f.elements, EncString)
  }

  ghost function EncInstance(f: InstanceFeature): seq<byte> {
    EncodeMap(0x0a, f.attributes, EncString)
  }

  ghost function EncInstanceList(es: seq<InstanceFeature>): seq<byte> {
    if es == [] then [] else [0x0a] + EncodeSpan(EncInstance(es[0])) + EncInstanceList(es[1..])
  }

  ghost function EncInstances(f: InstanceFeatureSet): seq<byte> {
    EncInstanceList(f.elements)
  }

  ghost function EncFeatures(f: Features): seq<byte> {
    EncodeMap(0x0a, f.flags, EncFlags) +
    EncodeMap(0x12, f.attributes, EncAttributes) +
    EncodeMap(0x1a, f.instances, EncInstances)
  }

  // ----- Decoding -----

  /** What one iteration of a decoder's outer loop finds at its index. */
  datatype Next = Known(num: int, start: nat, post: nat) | Skipped(next: nat)

  /** Tag, wire type checks and skipping, for a message whose fields are 1..last. */
  function NextField(d: Bytes, i: nat, last: int): (r: Result<Next, Error>)
    requires i < |d|
    ensures r.Ok? && r.value.Known? ==> i < r.value.start <= r.value.post <= |d| && 1 <= r.value.num <= last
    ensures r.Ok? && r.value.Skipped? ==> i < r.value.next <= |d|
  {
    var (wire, j) :- ReadVarint(d, i);
    var num := FieldNum(wire);
    if WireType(wire) == 4 then Err(EndGroupForNonGroup)
    else if num <= 0 then Err(IllegalTag)
    else if num <= last then
      if WireType(wire) != 2 then Err(WrongWireType)
      else
        var (start, post) :- ReadSpan(d, j);
        Ok(Known(num, start, post))
    else
      var next :- SkipWithin(d, i, |d|);
      Ok(Skipped(next))
  }

  /** Skips the field at index i, which must end by index limit. */
  function SkipWithin(d: Bytes, i: nat, limit: nat): (r: Result<nat, Error>)
    requires i <= |d|
    ensures r.Ok? ==> i < r.value <= limit
  {
    var n :- SkipFrom(d[i..], 0, 0);
    var next := Wrap64(i + n);
    if next < 0 then Err(InvalidLength)
    else if next > limit then Err(UnexpectedEOF)
    else Ok(next)
  }

  /**
  The loop over one map entry. Key and value may be missing, repeated or in any
  order, and each is bounded by the end of the data, not of the entry.
  */
  function ParseEntry<V>(d: Bytes, i: nat, post: nat, key: Str, value: V, dec: Bytes -> Result<V, Error>)
    : Result<(Str, V), Error>
    requires i <= |d| && post <= |d|
    decreases |d| - i
  {
    if i >= post then Ok((key, value))
    else
      var (wire, j) :- ReadVarint(d, i);
      if FieldNum(wire) == 1 then
        var (a, b) :- ReadSpan(d, j);
        ParseEntry(d, b, post, d[a..b], value, dec)
      else if FieldNum(wire) == 2 then
        var (a, b) :- ReadSpan(d, j);
        var v :- dec(d[a..b]);
        ParseEntry(d, b, post, key, v, dec)
      else
        var next :- SkipWithin(d, i, post);
        ParseEntry(d, next, post, key, value, dec)
  }

  /** A message whose only field is a map with field number 1, decoded on top of m. */
  function ParseMap<V>(d: Bytes, i: nat, m: map<Str, V>, zero: V, dec: Bytes -> Result<V, Error>)
    : Result<map<Str, V>, Error>
    requires i <= |d|
    decreases |d| - i
  {
    if i >= |d| then Ok(m)
    else
      match NextField(d, i, 1)
      case Err(e) => Err(e)
      case Ok(Skipped(next)) => ParseMap(d, next, m, zero, dec)
      case Ok(Known(_, start, post)) =>
        var (k, v) :- ParseEntry(d, start, post, [], zero, dec);
        ParseMap(d, post, m[k := v], zero, dec)
  }

  function DecString(d: Bytes): Result<Str, Error> { Ok(d) }

  function ParseNil(d: Bytes, i: nat): Result<Nil, Error>
    requires i <= |d|
    decreases |d| - i
  {
    if i >= |d| then Ok(Nil)
    else
      match NextField(d, i, 0)
      case Err(e) => Err(e)
      case Ok(Skipped(next)) => ParseNil(d, next)
  }

  function DecNil(d: Bytes): Result<Nil, Error> { ParseNil(d, 0) }

  function DecFlags(d: Bytes): Result<FlagFeatureSet, Error> {
    var m :- ParseMap(d, 0, map[], Nil, DecNil);
    Ok(FlagFeatureSet(m))
  }

  function DecAttributes(d: Bytes): Result<AttributeFeatureSet, Error> {
    var m :- ParseMap<Str>(d, 0, map[], [], DecString);
    Ok(AttributeFeatureSet(m))
  }

  function DecInstance(d: Bytes): Result<InstanceFeature, Error> {
    var m :- ParseMap<Str>(d, 0, map[], [], DecString);
    Ok(InstanceFeature(m))
  }

  /** Repeated instances, decoded on top of es. */
  function ParseInstances(d: Bytes, i: nat, es: seq<InstanceFeature>): Result<seq<InstanceFeature>, Error>
    requires i <= |d|
    decreases |d| - i
  {
    if i >= |d| then Ok(es)
    else
      match NextField(d, i, 1)
      case Err(e) => Err(e)
      case Ok(Skipped(next)) => ParseInstances(d, next, es)
      case Ok(Known(_, start, post)) =>
        var e :- DecInstance(d[start..post]);
        ParseInstances(d, post, es + [e])
  }

  function DecInstances(d: Bytes): Result<InstanceFeatureSet, Error> {
    var es :- ParseInstances(d, 0, []);
    Ok(InstanceFeatureSet(es))
  }

  /** One known field of Features, put into the map that its number selects. */
  function PutField(d: Bytes, num: int, start: nat, post: nat, f: Features): Result<Features, Error>
    requires start <= post <= |d| && 1 <= num <= 3
  {
    if num == 1 then
      var (k, v) :- ParseEntry(d, start, post, [], FlagFeatureSet(map[]), DecFlags);
      Ok(f.(flags := f.flags[k := v]))
    else if num == 2 then
      var (k, v) :- ParseEntry(d, start, post, [], AttributeFeatureSet(map[]), DecAttributes);
      Ok(f.(attributes := f.attributes[k := v]))
    else
      var (k, v) :- ParseEntry(d, start, post, [], InstanceFeatureSet([]), DecInstances);
      Ok(f.(instances := f.instances[k := v]))
  }

  function ParseFeatures(d: Bytes, i: nat, f: Features): Result<Features, Error>
    requires i <= |d|
    decreases |d| - i
  {
    if i >= |d| then Ok(f)
    else
      match NextField(d, i, 3)
      case Err(e) => Err(e)
      case Ok(Skipped(next)) => ParseFeatures(d, next, f)
      case Ok(Known(num, start, post)) =>
        var f' :- PutField(d, num, start, post, f);
        ParseFeatures(d, post, f')
  }

  const NO_FEATURES := Features(map[], map[], map[])

  function DecFeatures(d: Bytes): Result<Features, Error> {
    ParseFeatures(d, 0, NO_FEATURES)
  }

  // ----- Decoding what was encoded -----

  lemma TagInverse(d: Bytes, i: nat, tag: byte, rest: seq<byte>)
    requires tag < 128 && At(d, i, [tag] + rest)
    ensures ReadVarint(d, i) == Ok((tag, i + 1)) && At(d, i + 1, rest)
  {
    AtConcat(d, i, [tag], rest);
    assert EncodeVarint(tag) == [tag];
    VarintInverse(d, i, tag);
  }

  lemma FieldInverse(d: Bytes, i: nat, num: int, payload: seq<byte>, last: int)
    requires 1 <= num <= last && num < 15
    requires At(d, i, [8 * num + 2] + EncodeSpan(payload))
    ensures var post := i + 1 + |EncodeSpan(payload)|;
      && NextField(d, i, last) == Ok(Known(num, post - |payload|, post))
      && d[post - |payload|..post] == payload
  {
    hide At;
    hide EncodeSpan;
    hide ReadVarint;
    hide ReadSpan;
    TagInverse(d, i, 8 * num + 2, EncodeSpan(payload));
    SpanInverse(d, i + 1, payload);
  }

  ghost predicate Inverts<V>(enc: V -> seq<byte>, dec: Bytes -> Result<V, Error>, v: V) {
    |enc(v)| < TWO63 ==> dec(enc(v)) == Ok(v)
  }

  lemma KeyInverse<V>(d: Bytes, i: nat, post: nat, key: Str, key0: Str, v0: V, dec: Bytes -> Result<V, Error>)
    requires At(d, i, [0x0a] + EncodeSpan(key)) && i < post <= |d|
    ensures ParseEntry(d, i, post, key0, v0, dec)
         == ParseEntry(d, i + |[0x0a] + EncodeSpan(key)|, post, key, v0, dec)
  {
    hide ParseEntry;
    hide At;
    hide EncodeSpan;
    hide ReadVarint;
    hide ReadSpan;
    TagInverse(d, i, 0x0a, EncodeSpan(key));
    SpanInverse(d, i + 1, key);
    KeyStep(d, i, post, i + 1, i + |[0x0a] + EncodeSpan(key)|, key, key0, v0, dec);
  }

  lemma KeyStep<V>(d: Bytes, i: nat, post: nat, j: nat, next: nat, key: Str, key0: Str, v0: V,
                   dec: Bytes -> Result<V, Error>)
    requires i < post <= |d| && j <= |d|
    requires ReadVarint(d, i) == Ok((0x0a, j))
    requires ReadSpan(d, j) == Ok((next - |key|, next)) && d[next - |key|..next] == key
    ensures ParseEntry(d, i, post, key0, v0, dec) == ParseEntry(d, next, post, key, v0, dec)
  {
    hide ReadVarint;
    hide ReadSpan;
    hide SkipWithin;
  }

  lemma ValueInverse<V>(d: Bytes, i: nat, v: V, enc: V -> seq<byte>, key0: Str, v0: V, dec: Bytes -> Result<V, Error>)
    requires At(d, i, [0x12] + EncodeSpan(enc(v)))
    requires Inverts(enc, dec, v)
    ensures ParseEntry(d, i, i + |[0x12] + EncodeSpan(enc(v))|, key0, v0, dec) == Ok((key0, v))
  {
    hide ParseEntry;
    hide At;
    hide EncodeSpan;
    hide ReadVarint;
    hide ReadSpan;
    TagInverse(d, i, 0x12, EncodeSpan(enc(v)));
    SpanInverse(d, i + 1, enc(v));
    ValueStep(d, i, i + 1, i + |[0x12] + EncodeSpan(enc(v))|, enc(v), v, key0, v0, dec);
  }

  lemma ValueStep<V>(d: Bytes, i: nat, j: nat, post: nat, bytes: Bytes, v: V, key0: Str, v0: V,
                     dec: Bytes -> Result<V, Error>)
    requires i < post <= |d| && j <= |d|
    requires ReadVarint(d, i) == Ok((0x12, j))
    requires ReadSpan(d, j) == Ok((post - |bytes|, post)) && d[post - |bytes|..post] == bytes
    requires dec(bytes) == Ok(v)
    ensures ParseEntry(d, i, post, key0, v0, dec) == Ok((key0, v))
  {
    hide ReadVarint;
    hide ReadSpan;
    hide SkipWithin;
    assert ParseEntry(d, post, post, key0, v, dec) == Ok((key0, v));
  }

  lemma EntryInverse<V>(d: Bytes, i: nat, key: Str, v: V, enc: V -> seq<byte>,
                        key0: Str, v0: V, dec: Bytes -> Result<V, Error>)
    requires At(d, i, EntryBody(key, enc(v)))
    requires Inverts(enc, dec, v)
    ensures ParseEntry(d, i, i + |EntryBody(key, enc(v))|, key0, v0, dec) == Ok((key, v))
  {
    hide ParseEntry;
    hide EncodeSpan;
    hide Inverts;
    hide At;
    var first, second := [0x0a] + EncodeSpan(key), [0x12] + EncodeSpan(enc(v));
    var post := i + |EntryBody(key, enc(v))|;
    AtConcat(d, i, first, second);
    KeyInverse(d, i, post, key, key0, v0, dec);
    ValueInverse(d, i + |first|, v, enc, key, v0, dec);
    assert post == i + |first| + |second|;
  }

  lemma SpanEnds(d: Bytes, i: nat, body: seq<byte>)
    requires At(d, i, EncodeSpan(body))
    ensures |body| < |EncodeSpan(body)| && i + |EncodeSpan(body)| <= |d|
    ensures At(d, i + |EncodeSpan(body)| - |body|, body)
  {
    AtConcat(d, i, EncodeVarint(|body|), body);
  }

  /** One whole map entry of field num. */
  lemma EntryFieldInverse<V>(d: Bytes, i: nat, num: int, last: int, key: Str, v: V, enc: V -> seq<byte>,
                             zero: V, dec: Bytes -> Result<V, Error>)
    requires 1 <= num <= last && num < 15
    requires At(d, i, Entry(8 * num + 2, key, enc(v)))
    requires Inverts(enc, dec, v)
    ensures var post := i + |Entry(8 * num + 2, key, enc(v))|;
      var start := post - |EntryBody(key, enc(v))|;
      && i < start <= post <= |d|
      && NextField(d, i, last) == Ok(Known(num, start, post))
      && ParseEntry(d, start, post, [], zero, dec) == Ok((key, v))
  {
    hide ParseEntry;
    hide NextField;
    hide EncodeSpan;
    hide EntryBody;
    hide At;
    hide Inverts;
    var body := EntryBody(key, enc(v));
    AtConcat(d, i, [8 * num + 2], EncodeSpan(body));
    SpanEnds(d, i + 1, body);
    FieldInverse(d, i, num, body, last);
    var post := i + |Entry(8 * num + 2, key, enc(v))|;
    EntryInverse(d, post - |body|, key, v, enc, [], zero, dec);
  }

  /** m0 overlaid with the listed entries of m, in order. */
  ghost function Overlay<K, V>(m0: map<K, V>, keys: seq<K>, m: map<K, V>): (r: map<K, V>)
    requires Elems(keys) <= m.Keys
    ensures r.Keys == m0.Keys + Elems(keys)
    ensures forall k | k in r :: r[k] == if k in keys then m[k] else m0[k]
    decreases keys
  {
    if keys == [] then m0
    else
      assert keys[0] in Elems(keys);
      assert Elems(keys) == {keys[0]} + Elems(keys[1..]);
      Overlay(m0[keys[0] := m[keys[0]]], keys[1..], m)
  }

  lemma OverlayAll<V>(m0: map<Str, V>, m: map<Str, V>)
    ensures Overlay(m0, KeysOf(m), m) == m0 + m
  {
    var ks := KeysOf(m);
    forall k ensures k in ks <==> k in m {
      assert k in ks <==> k in Elems(ks);
    }
  }

  lemma OverlayStep<K, V>(m0: map<K, V>, keys: seq<K>, m: map<K, V>)
    requires Elems(keys) <= m.Keys
    ensures keys == [] ==> Overlay(m0, keys, m) == m0
    ensures keys != [] ==>
      && keys[0] in m && Elems(keys[1..]) <= m.Keys
      && Overlay(m0, keys, m) == Overlay(m0[keys[0] := m[keys[0]]], keys[1..], m)
  {
    if keys != [] {
      assert keys[0] in Elems(keys);
      assert Elems(keys) == {keys[0]} + Elems(keys[1..]);
    }
  }

  lemma NoEntry<V>(tag: byte, m: map<Str, V>, enc: V -> seq<byte>)
    ensures Elems<Str>([]) <= m.Keys && EncodeEntries(tag, [], m, enc) == []
  {
  }

  lemma EntryAt<V>(d: Bytes, i: nat, tag: byte, keys: seq<Str>, m: map<Str, V>, enc: V -> seq<byte>)
    requires Elems(keys) <= m.Keys && keys != []
    requires At(d, i, EncodeEntries(tag, keys, m, enc))
    ensures keys[0] in m.Keys && Elems(keys[1..]) <= m.Keys
    ensures var e := Entry(tag, keys[0], enc(m[keys[0]]));
      && At(d, i, e) && At(d, i + |e|, EncodeEntries(tag, keys[1..], m, enc))
      && |EncodeEntries(tag, keys, m, enc)| == |e| + |EncodeEntries(tag, keys[1..], m, enc)|
  {
    assert keys[0] in Elems(keys);
    AtConcat(d, i, Entry(tag, keys[0], enc(m[keys[0]])), EncodeEntries(tag, keys[1..], m, enc));
  }

  /** Decoding the encoded entries overlays them on whatever was decoded before. */
  lemma {:induction false} MapPrefix<V>(d: Bytes, i: nat, keys: seq<Str>, m: map<Str, V>, enc: V -> seq<byte>,
                                        m0: map<Str, V>, zero: V, dec: Bytes -> Result<V, Error>)
    requires Elems(keys) <= m.Keys
    requires At(d, i, EncodeEntries(0x0a, keys, m, enc))
    requires forall k | k in keys && k in m :: Inverts(enc, dec, m[k])
    ensures ParseMap(d, i, m0, zero, dec)
         == ParseMap(d, i + |EncodeEntries(0x0a, keys, m, enc)|, Overlay(m0, keys, m), zero, dec)
    decreases keys
  {
    hide ParseMap;
    hide Entry;
    hide Inverts;
    hide At;
    hide EncodeEntries;
    hide Overlay;
    OverlayStep(m0, keys, m);
    if keys == [] {
      NoEntry(0x0a, m, enc);
    } else {
      EntryAt(d, i, 0x0a, keys, m, enc);
      var k := keys[0];
      var post := i + |Entry(0x0a, k, enc(m[k]))|;
      MapStep(d, i, k, m[k], enc, m0, zero, dec);
      MapPrefix(d, post, keys[1..], m, enc, m0[k := m[k]], zero, dec);
    }
  }

  lemma MapStep<V>(d: Bytes, i: nat, key: Str, v: V, enc: V -> seq<byte>,
                   m0: map<Str, V>, zero: V, dec: Bytes -> Result<V, Error>)
    requires At(d, i, Entry(0x0a, key, enc(v))) && Inverts(enc, dec, v)
    ensures ParseMap(d, i, m0, zero, dec)
         == ParseMap(d, i + |Entry(0x0a, key, enc(v))|, m0[key := v], zero, dec)
  {
    hide NextField;
    hide ParseEntry;
    hide Entry;
    hide EntryBody;
    hide At;
    EntryFieldInverse(d, i, 1, 1, key, v, enc, zero, dec);
  }
}
