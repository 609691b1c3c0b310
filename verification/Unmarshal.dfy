/**
The generated Unmarshal loops. Each is total on arbitrary bytes, stays inside
the buffer, and computes the decoding function of its message. The receiver is
an object that keeps what was decoded before an error.
*/
module Unmarshal {
  import opened Basics
  import opened Wire
  import opened Messages

  method SkipAt(d: Bytes, i: nat, limit: nat) returns (r: Result<nat, Error>)
    requires i <= |d|
    ensures r == SkipWithin(d, i, limit)
  {
    var skippy := SkipField(d[i..]);
    if skippy.Err? { return Err(skippy.error); }
    var next := Wrap64(i + skippy.value);
    if next < 0 { return Err(InvalidLength); }
    if next > limit { return Err(UnexpectedEOF); }
    return Ok(next);
  }

  /** The head of the outer loop: tag checks, and the skipping of unknown fields. */
  method FindField(d: Bytes, i: nat, last: int) returns (r: Result<Next, Error>)
    requires i < |d|
    ensures r == NextField(d, i, last)
  {
    hide ReadVarint;
    hide ReadSpan;
    hide SkipWithin;
    var tag := DecodeVarint(d, i);
    if tag.Err? { return Err(tag.error); }
    var num := FieldNum(tag.value.0);
    var wireType := WireType(tag.value.0);
    if wireType == 4 { return Err(EndGroupForNonGroup); }
    if num <= 0 { return Err(IllegalTag); }
    if num <= last {
      if wireType != 2 { return Err(WrongWireType); }
      var span := DecodeSpan(d, tag.value.1);
      if span.Err? { return Err(span.error); }
      return Ok(Known(num, span.value.0, span.value.1));
    }
    var next := SkipAt(d, i, |d|);
    if next.Err? { return Err(next.error); }
    return Ok(Skipped(next.value));
  }

  /** The loop over one map entry; its index may pass postIndex, to which the caller returns. */
  method UnmarshalEntry<V>(d: Bytes, start: nat, post: nat, zero: V, dec: Bytes -> Result<V, Error>)
    returns (r: Result<(Str, V), Error>)
    requires start <= |d| && post <= |d|
    ensures r == ParseEntry(d, start, post, [], zero, dec)
  {
    hide ReadVarint;
    hide ReadSpan;
    hide SkipWithin;
    hide FieldNum;
    var mapkey: Str := [];
    var mapvalue := zero;
    var i := start;
    while i < post
      invariant start <= i <= |d|
      invariant ParseEntry(d, i, post, mapkey, mapvalue, dec) == ParseEntry(d, start, post, [], zero, dec)
      decreases |d| - i
    {
      var tag := DecodeVarint(d, i);
      if tag.Err? { return Err(tag.error); }
      if FieldNum(tag.value.0) == 1 {
        var span := DecodeSpan(d, tag.value.1);
        if span.Err? { return Err(span.error); }
        mapkey := d[span.value.0..span.value.1];
        i := span.value.1;
      } else if FieldNum(tag.value.0) == 2 {
        var span := DecodeSpan(d, tag.value.1);
        if span.Err? { return Err(span.error); }
        var v := dec(d[span.value.0..span.value.1]);
        if v.Err? { return Err(v.error); }
        mapvalue := v.value;
        i := span.value.1;
      } else {
        var next := SkipAt(d, i, post);
        if next.Err? { return Err(next.error); }
        i := next.value;
      }
    }
    return Ok((mapkey, mapvalue));
  }

  // ----- What the receiver holds afterwards -----

  /** Decoding either succeeds with what the receiver holds or fails with the error that is returned. */
  ghost predicate Ended<T>(r: Result<T, Error>, receiver: T, err: Option<Error>) {
    match err
    case None => r == Ok(receiver)
    case Some(e) => r == Err(e)
  }

  /** The map after decoding, up to the first error if there is one. */
  function LeftMap<V>(d: Bytes, i: nat, m: map<Str, V>, zero: V, dec: Bytes -> Result<V, Error>): map<Str, V>
    requires i <= |d|
    decreases |d| - i
  {
    if i >= |d| then m
    else
      match NextField(d, i, 1)
      case Err(_) => m
      case Ok(Skipped(next)) => LeftMap(d, next, m, zero, dec)
      case Ok(Known(_, start, post)) =>
        var e := ParseEntry(d, start, post, [], zero, dec);
        if e.Err? then m else LeftMap(d, post, m[e.value.0 := e.value.1], zero, dec)
  }

  /** The instances after decoding: the one that fails is kept as far as it was decoded. */
  function LeftInstances(d: Bytes, i: nat, es: seq<InstanceFeature>): seq<InstanceFeature>
    requires i <= |d|
    decreases |d| - i
  {
    if i >= |d| then es
    else
      match NextField(d, i, 1)
      case Err(_) => es
      case Ok(Skipped(next)) => LeftInstances(d, next, es)
      case Ok(Known(_, start, post)) =>
        var more := es + [InstanceFeature(LeftMap<Str>(d[start..post], 0, map[], [], DecString))];
        if DecInstance(d[start..post]).Err? then more else LeftInstances(d, post, more)
  }

  function LeftFeatures(d: Bytes, i: nat, f: Features): Features
    requires i <= |d|
    decreases |d| - i
  {
    if i >= |d| then f
    else
      match NextField(d, i, 3)
      case Err(_) => f
      case Ok(Skipped(next)) => LeftFeatures(d, next, f)
      case Ok(Known(num, start, post)) =>
        var put := PutField(d, num, start, post, f);
        if put.Err? then f else LeftFeatures(d, post, put.value)
  }

  /** AttributeFeatureSet, FlagFeatureSet and InstanceFeature: one map. */
  class MapMessage<V> {
    var elements: map<Str, V>

    constructor (m: map<Str, V>)
      ensures elements == m
    {
      elements := m;
    }

    /** Merges the decoded entries into the receiver. */
    method Unmarshal(d: Bytes, zero: V, dec: Bytes -> Result<V, Error>) returns (err: Option<Error>)
      modifies this
      ensures Ended(ParseMap(d, 0, old(elements), zero, dec), elements, err)
      ensures elements == LeftMap(d, 0, old(elements), zero, dec)
    {
      hide NextField;
      hide ParseEntry;
      var i := 0;
      ghost var m0 := elements;
      while i < |d|
        invariant 0 <= i <= |d|
        invariant ParseMap(d, i, elements, zero, dec) == ParseMap(d, 0, m0, zero, dec)
        invariant LeftMap(d, i, elements, zero, dec) == LeftMap(d, 0, m0, zero, dec)
        decreases |d| - i
      {
        var field := FindField(d, i, 1);
        if field.Err? { return Some(field.error); }
        if field.value.Skipped? {
          i := field.value.next;
        } else {
          var entry := UnmarshalEntry(d, field.value.start, field.value.post, zero, dec);
          if entry.Err? { return Some(entry.error); }
          elements := elements[entry.value.0 := entry.value.1];
          i := field.value.post;
        }
      }
      return None;
    }
  }

  /** InstanceFeatureSet */
  class InstancesMessage {
    var elements: seq<InstanceFeature>

    constructor (es: seq<InstanceFeature>)
      ensures elements == es
    {
      elements := es;
    }

    /** Appends the decoded instances to the receiver. */
    method Unmarshal(d: Bytes) returns (err: Option<Error>)
      modifies this
      ensures Ended(ParseInstances(d, 0, old(elements)), elements, err)
      ensures elements == LeftInstances(d, 0, old(elements))
    {
      hide NextField;
      hide ParseMap;
      hide LeftMap;
      var i := 0;
      ghost var es0 := elements;
      while i < |d|
        invariant 0 <= i <= |d|
        invariant ParseInstances(d, i, elements) == ParseInstances(d, 0, es0)
        invariant LeftInstances(d, i, elements) == LeftInstances(d, 0, es0)
        decreases |d| - i
      {
        var field := FindField(d, i, 1);
        if field.Err? { return Some(field.error); }
        if field.value.Skipped? {
          i := field.value.next;
        } else {
          var e := new MapMessage<Str>(map[]);
          err := e.Unmarshal(d[field.value.start..field.value.post], [], DecString);
          elements := elements + [InstanceFeature(e.elements)];
          if err.Some? { return; }
          i := field.value.post;
        }
      }
      return None;
    }
  }

  method UnmarshalNil(d: Bytes) returns (r: Result<Nil, Error>)
    ensures r == DecNil(d)
  {
    hide NextField;
    var i := 0;
    while i < |d|
      invariant 0 <= i <= |d|
      invariant ParseNil(d, i) == ParseNil(d, 0)
      decreases |d| - i
    {
      var field := FindField(d, i, 0);
      if field.Err? { return Err(field.error); }
      i := field.value.next;
    }
    return Ok(Nil);
  }

  /** Features */
  class FeaturesMessage {
    var value: Features

    constructor (f: Features)
      ensures value == f
    {
      value := f;
    }

    /** Puts the decoded sets into the receiver, each in place of one with the same key. */
    method Unmarshal(d: Bytes) returns (err: Option<Error>)
      modifies this
      ensures Ended(ParseFeatures(d, 0, old(value)), value, err)
      ensures value == LeftFeatures(d, 0, old(value))
    {
      hide NextField;
      hide ParseEntry;
      var i := 0;
      ghost var f0 := value;
      while i < |d|
        invariant 0 <= i <= |d|
        invariant ParseFeatures(d, i, value) == ParseFeatures(d, 0, f0)
        invariant LeftFeatures(d, i, value) == LeftFeatures(d, 0, f0)
        decreases |d| - i
      {
        var field := FindField(d, i, 3);
        if field.Err? { return Some(field.error); }
        if field.value.Skipped? {
          i := field.value.next;
        } else {
          var num, start, post := field.value.num, field.value.start, field.value.post;
          if num == 1 {
            var e := UnmarshalEntry(d, start, post, FlagFeatureSet(map[]), DecFlags);
            if e.Err? { return Some(e.error); }
            value := value.(flags := value.flags[e.value.0 := e.value.1]);
          } else if num == 2 {
            var e := UnmarshalEntry(d, start, post, AttributeFeatureSet(map[]), DecAttributes);
            if e.Err? { return Some(e.error); }
            value := value.(attributes := value.attributes[e.value.0 := e.value.1]);
          } else {
            var e := UnmarshalEntry(d, start, post, InstanceFeatureSet([]), DecInstances);
            if e.Err? { return Some(e.error); }
            value := value.(instances := value.instances[e.value.0 := e.value.1]);
          }
          i := post;
        }
      }
      return None;
    }
  }

  // ----- Errors behind a valid part -----

  lemma LeftStep<V>(d: Bytes, i: nat, key: Str, v: V, enc: V -> seq<byte>,
                    m0: map<Str, V>, zero: V, dec: Bytes -> Result<V, Error>)
    requires At(d, i, Entry(0x0a, key, enc(v))) && Inverts(enc, dec, v)
    ensures LeftMap(d, i, m0, zero, dec)
         == LeftMap(d, i + |Entry(0x0a, key, enc(v))|, m0[key := v], zero, dec)
  {
    hide NextField;
    hide ParseEntry;
    hide Entry;
    hide EntryBody;
    hide At;
    EntryFieldInverse(d, i, 1, 1, key, v, enc, zero, dec);
  }

  lemma {:induction false} LeftPrefix<V>(d: Bytes, i: nat, keys: seq<Str>, m: map<Str, V>, enc: V -> seq<byte>,
                                         m0: map<Str, V>, zero: V, dec: Bytes -> Result<V, Error>)
    requires Elems(keys) <= m.Keys
    requires At(d, i, EncodeEntries(0x0a, keys, m, enc))
    requires forall k | k in keys && k in m :: Inverts(enc, dec, m[k])
    ensures LeftMap(d, i, m0, zero, dec)
         == LeftMap(d, i + |EncodeEntries(0x0a, keys, m, enc)|, Overlay(m0, keys, m), zero, dec)
    decreases keys
  {
    hide LeftMap;
    hide Entry;
    hide Inverts;
    hide At;
    hide EncodeEntries;
    hide Overlay;
    OverlayStep(m0, keys, m);
    if keys == [] {
      NoEntry(0x0a, m, enc);
    } else {
      EntryAt(d, i, 0x0a, keys, m, enc);
      var k := keys[0];
      var post := i + |Entry(0x0a, k, enc(m[k]))|;
      LeftStep(d, i, k, m[k], enc, m0, zero, dec);
      LeftPrefix(d, post, keys[1..], m, enc, m0[k := m[k]], zero, dec);
    }
  }

  /** An encoded map with bytes behind it that cannot be decoded: the receiver keeps all of the map. */
  lemma ErrorKeepsPrefix<V>(d: Bytes, m: map<Str, V>, enc: V -> seq<byte>,
                            m0: map<Str, V>, zero: V, dec: Bytes -> Result<V, Error>)
    requires At(d, 0, EncodeMap(0x0a, m, enc)) && |EncodeMap(0x0a, m, enc)| < |d|
    requires NextField(d, |EncodeMap(0x0a, m, enc)|, 1).Err?
    requires forall k | k in m :: Inverts(enc, dec, m[k])
    ensures ParseMap(d, 0, m0, zero, dec).Err? && LeftMap(d, 0, m0, zero, dec) == m0 + m
  {
    hide NextField;
    hide EncodeEntries;
    hide Inverts;
    hide At;
    hide KeysOf;
    MapPrefix(d, 0, KeysOf(m), m, enc, m0, zero, dec);
    LeftPrefix(d, 0, KeysOf(m), m, enc, m0, zero, dec);
    OverlayAll(m0, m);
  }
}
