/**
The generated Size and MarshalToSizedBuffer methods. Marshalling fills a byte
buffer from its end towards its start; every method here says which bytes it
has put in front of the ones already written, and that it touched nothing else.
*/
module Marshal {
  import opened Basics
  import opened Ordering
  import opened Wire
  import opened Messages

  /** s with the bytes from index `at` on overwritten by x. */
  ghost function Splice(s: seq<byte>, at: nat, x: seq<byte>): (r: seq<byte>)
    requires at + |x| <= |s|
    ensures |r| == |s|
  {
    s[..at] + x + s[at + |x|..]
  }

  /** Bytes put directly in front of spliced ones extend the splice. */
  lemma SpliceInFront(s: seq<byte>, at: nat, x: seq<byte>, front: seq<byte>)
    requires |front| <= at && at + |x| <= |s|
    ensures Splice(Splice(s, at, x), at - |front|, front) == Splice(s, at - |front|, front + x)
  {
    var r := Splice(Splice(s, at, x), at - |front|, front);
    var t := Splice(s, at - |front|, front + x);
    forall k | 0 <= k < |s| ensures r[k] == t[k] {
    }
  }

  // ----- Primitive writes -----

  /** encodeVarintGenerated: the varint ends where the offset pointed. */
  method PutVarint(buf: array<byte>, offset: nat, value: nat) returns (base: nat)
    requires Sov(value) <= offset <= buf.Length
    modifies buf
    ensures base == offset - Sov(value) && |EncodeVarint(value)| == Sov(value)
    ensures buf[..] == Splice(old(buf[..]), base, EncodeVarint(value))
  {
    hide Sov;
    hide EncodeVarint;
    hide Splice;
    SovIsEncodedLength(value);
    base := offset - Sov(value);
    var at := base;
    var v := value;
    ghost var e: seq<byte> := EncodeVarint(value);
    ghost var before := buf[..];
    assert e[0..] == e;
    FilledNothing(before, base, e);
    while v >= 128
      invariant base <= at && at - base < |e| && EncodeVarint(v) == e[at - base..]
      invariant Filled(buf[..], before, base, e, at - base)
      decreases v
    {
      FirstGroup(v, e, at - base);
      FillNext(buf[..], before, base, e, at - base);
      buf[at] := v % 128 + 128;
      v := v / 128;
      at := at + 1;
    }
    FirstGroup(v, e, at - base);
    FillNext(buf[..], before, base, e, at - base);
    buf[at] := v;
    assert Filled(buf[..], before, base, e, |e|);
  }

  /** The first n bytes of e have been written over `before`. */
  ghost predicate Filled(now: seq<byte>, before: seq<byte>, base: nat, e: seq<byte>, n: nat) {
    n <= |e| && base + n <= |before| && now == Splice(before, base, e[..n])
  }

  lemma FillNext(now: seq<byte>, before: seq<byte>, base: nat, e: seq<byte>, n: nat)
    requires Filled(now, before, base, e, n) && n < |e| && base + n < |before|
    ensures Filled(now[base + n := e[n]], before, base, e, n + 1)
    ensures e[..|e|] == e
  {
    assert e[..n + 1] == e[..n] + [e[n]];
  }

  lemma FilledNothing(before: seq<byte>, base: nat, e: seq<byte>)
    requires base <= |before|
    ensures Filled(before, before, base, e, 0)
  {
    assert e[..0] == [];
  }

  lemma FirstGroup(v: nat, e: seq<byte>, k: nat)
    requires k < |e| && EncodeVarint(v) == e[k..]
    ensures e[k] == if v < 128 then v else v % 128 + 128
    ensures v < 128 ==> k + 1 == |e|
    ensures v >= 128 ==> k + 1 < |e| && EncodeVarint(v / 128) == e[k + 1..]
  {
    assert e[k] == e[k..][0];
    if v >= 128 {
      assert EncodeVarint(v)[1..] == EncodeVarint(v / 128);
      assert e[k..][1..] == e[k + 1..];
    }
  }

  /** i -= len(x); copy(dAtA[i:], x) */
  method PutBytes(buf: array<byte>, end: nat, x: seq<byte>) returns (i: nat)
    requires |x| <= end <= buf.Length
    modifies buf
    ensures i == end - |x|
    ensures buf[..] == Splice(old(buf[..]), i, x)
  {
    i := end - |x|;
    forall k | 0 <= k < |x| { buf[i + k] := x[k]; }
  }

  /** What precedes the value of a map entry. */
  function EntryHeader(tag: byte, key: Str, n: nat): seq<byte> {
    [tag] + (EncodeVarint(|[0x0a] + EncodeSpan(key)| + 1 + |EncodeVarint(n)| + n)
      + ([0x0a] + (EncodeVarint(|key|) + (key + ([0x12] + EncodeVarint(n))))))
  }

  lemma HeaderMakesEntry(tag: byte, key: Str, value: seq<byte>)
    ensures EntryHeader(tag, key, |value|) + value == Entry(tag, key, value)
  {
    hide EncodeVarint;
    var body := EntryBody(key, value);
    assert |body| == |[0x0a] + EncodeSpan(key)| + 1 + |EncodeVarint(|value|)| + |value|;
    assert ([0x0a] + (EncodeVarint(|key|) + (key + ([0x12] + EncodeVarint(|value|))))) + value == body;
  }

  /** Everything a marshalling loop writes after the value of a map entry, which takes up n bytes. */
  method PutEntryHeader(buf: array<byte>, start: nat, n: nat, key: Str, tag: byte) returns (i: nat)
    requires |EntryHeader(tag, key, n)| <= start && start + n <= buf.Length
    modifies buf
    ensures i == start - |EntryHeader(tag, key, n)|
    ensures buf[..] == Splice(old(buf[..]), i, EntryHeader(tag, key, n))
  {
    hide EncodeVarint;
    hide Sov;
    hide Splice;
    ghost var before := buf[..];
    var baseI := start + n;
    var bodyLen := |[0x0a] + EncodeSpan(key)| + 1 + |EncodeVarint(n)| + n;
    SovIsEncodedLength(n);
    SovIsEncodedLength(|key|);
    SovIsEncodedLength(bodyLen);
    i := PutVarint(buf, start, n);
    ghost var x := EncodeVarint(n);
    i := PutFront(buf, before, i, [0x12], x);
    x := [0x12] + x;
    i := PutFront(buf, before, i, key, x);
    x := key + x;
    i := PutVarintFront(buf, before, i, |key|, x);
    x := EncodeVarint(|key|) + x;
    i := PutFront(buf, before, i, [0x0a], x);
    x := [0x0a] + x;
    assert baseI - i == bodyLen;
    i := PutVarintFront(buf, before, i, baseI - i, x);
    x := EncodeVarint(bodyLen) + x;
    i := PutFront(buf, before, i, [tag], x);
  }

  /** PutBytes in front of bytes x already written over `before`. */
  method PutFront(buf: array<byte>, ghost before: seq<byte>, end: nat, front: seq<byte>, ghost x: seq<byte>)
    returns (i: nat)
    requires |front| <= end && end + |x| <= |before| && buf[..] == Splice(before, end, x)
    modifies buf
    ensures i == end - |front| && i + |front + x| <= |before|
    ensures buf[..] == Splice(before, i, front + x)
  {
    i := PutBytes(buf, end, front);
    SpliceInFront(before, end, x, front);
  }

  /** PutVarint in front of bytes x already written over `before`. */
  method PutVarintFront(buf: array<byte>, ghost before: seq<byte>, end: nat, v: nat, ghost x: seq<byte>)
    returns (i: nat)
    requires |EncodeVarint(v)| <= end && end + |x| <= |before| && buf[..] == Splice(before, end, x)
    modifies buf
    ensures i == end - |EncodeVarint(v)| && i + |EncodeVarint(v) + x| <= |before|
    ensures buf[..] == Splice(before, i, EncodeVarint(v) + x)
  {
    SovIsEncodedLength(v);
    i := PutVarint(buf, end, v);
    SpliceInFront(before, end, x, EncodeVarint(v));
  }

  // ----- MarshalToSizedBuffer -----

  lemma {:induction false} SuffixFits<V>(tag: byte, keys: seq<Str>, m: map<Str, V>, enc: V -> seq<byte>, j: nat)
    requires Elems(keys) <= m.Keys && j <= |keys|
    ensures Elems(keys[j..]) <= m.Keys
    ensures |EncodeEntries(tag, keys[j..], m, enc)| <= |EncodeEntries(tag, keys, m, enc)|
    decreases keys
  {
    hide Entry;
    if j == 0 {
      assert keys[0..] == keys;
    } else {
      assert Elems(keys[1..]) <= Elems(keys);
      SuffixFits(tag, keys[1..], m, enc, j - 1);
      assert keys[1..][j - 1..] == keys[j..];
    }
  }

  lemma EntriesFrom<V>(tag: byte, keys: seq<Str>, m: map<Str, V>, enc: V -> seq<byte>, j: nat)
    requires j < |keys| && Elems(keys[j..]) <= m.Keys
    ensures keys[j] in m && Elems(keys[j + 1..]) <= m.Keys
    ensures EncodeEntries(tag, keys[j..], m, enc)
         == Entry(tag, keys[j], enc(m[keys[j]])) + EncodeEntries(tag, keys[j + 1..], m, enc)
  {
    hide Entry;
    assert keys[j..][0] == keys[j] && keys[j..][1..] == keys[j + 1..];
    assert keys[j] in Elems(keys[j..]);
    assert Elems(keys[j + 1..]) <= Elems(keys[j..]);
  }

  /** The entry in front of those already written, and the room for it. */
  lemma NextEntry<V>(tag: byte, keys: seq<Str>, m: map<Str, V>, enc: V -> seq<byte>, j: nat)
    requires Elems(keys) <= m.Keys && j < |keys|
    ensures keys[j] in m && Elems(keys[j..]) <= m.Keys && Elems(keys[j + 1..]) <= m.Keys
    ensures var v := enc(m[keys[j]]);
      && EntryHeader(tag, keys[j], |v|) + (v + EncodeEntries(tag, keys[j + 1..], m, enc))
         == EncodeEntries(tag, keys[j..], m, enc)
      && |EntryHeader(tag, keys[j], |v|)| + |v| + |EncodeEntries(tag, keys[j + 1..], m, enc)|
         <= |EncodeEntries(tag, keys, m, enc)|
  {
    hide Entry;
    hide EntryHeader;
    hide EncodeEntries;
    SuffixFits(tag, keys, m, enc, j);
    SuffixFits(tag, keys, m, enc, j + 1);
    EntriesFrom(tag, keys, m, enc, j);
    var v, rest := enc(m[keys[j]]), EncodeEntries(tag, keys[j + 1..], m, enc);
    HeaderMakesEntry(tag, keys[j], v);
    assert EntryHeader(tag, keys[j], |v|) + (v + rest) == (EntryHeader(tag, keys[j], |v|) + v) + rest;
  }

  /** Puts the header of entry j in front of its value and of the entries after it. */
  method PutHeaderOf<V>(buf: array<byte>, ghost before: seq<byte>, start: nat, n: nat, tag: byte,
                        keys: seq<Str>, j: nat, ghost m: map<Str, V>, ghost enc: V -> seq<byte>)
    returns (i: nat)
    requires Elems(keys) <= m.Keys && j < |keys| && keys[j] in m.Keys && Elems(keys[j + 1..]) <= m.Keys
    requires n == |enc(m[keys[j]])|
    requires var x := enc(m[keys[j]]) + EncodeEntries(tag, keys[j + 1..], m, enc);
      && |EntryHeader(tag, keys[j], n)| <= start && start + |x| <= |before|
      && buf[..] == Splice(before, start, x)
    modifies buf
    ensures Elems(keys[j..]) <= m.Keys
    ensures i == start - |EntryHeader(tag, keys[j], n)|
    ensures i + |EncodeEntries(tag, keys[j..], m, enc)| <= |before|
    ensures buf[..] == Splice(before, i, EncodeEntries(tag, keys[j..], m, enc))
  {
    hide EntryHeader;
    hide EncodeEntries;
    ghost var x := enc(m[keys[j]]) + EncodeEntries(tag, keys[j + 1..], m, enc);
    NextEntry(tag, keys, m, enc, j);
    i := PutEntryHeader(buf, start, n, keys[j], tag);
    SpliceInFront(before, start, x, EntryHeader(tag, keys[j], n));
  }

  /** The keys of a map, collected in whatever order it yields them and sorted. */
  method KeysInOrder<V>(m: map<Str, V>) returns (keys: seq<Str>)
    ensures keys == KeysOf(m)
  {
    StrOrder();
    keys := CollectSorted(LessStr, m.Keys);
  }

  /** The entries from j on, and nothing else, have been written in front of the end. */
  ghost predicate Written<V>(now: seq<byte>, before: seq<byte>, i: nat, end: nat, tag: byte,
                             keys: seq<Str>, j: nat, m: map<Str, V>, enc: V -> seq<byte>)
  {
    && j <= |keys| && Elems(keys[j..]) <= m.Keys && end <= |before|
    && i + |EncodeEntries(tag, keys[j..], m, enc)| == end
    && now == Splice(before, i, EncodeEntries(tag, keys[j..], m, enc))
  }

  lemma NoneWritten<V>(tag: byte, keys: seq<Str>, m: map<Str, V>, enc: V -> seq<byte>, before: seq<byte>, end: nat)
    requires end <= |before|
    ensures Written(before, before, end, end, tag, keys, |keys|, m, enc)
    ensures keys == KeysOf(m) ==> Elems(keys) <= m.Keys && EncodeEntries(tag, keys, m, enc) == EncodeMap(tag, m, enc)
  {
  }

  lemma AllWritten<V>(tag: byte, keys: seq<Str>, m: map<Str, V>, enc: V -> seq<byte>,
                      now: seq<byte>, before: seq<byte>, i: nat, end: nat)
    requires keys == KeysOf(m) && Written(now, before, i, end, tag, keys, 0, m, enc)
    ensures i == end - |EncodeMap(tag, m, enc)| && now == Splice(before, i, EncodeMap(tag, m, enc))
  {
    hide EncodeEntries;
    hide Splice;
    assert keys[0..] == keys;
  }

  /** One string entry: the value is copied, then its header put in front. */
  method PutString(buf: array<byte>, ghost before: seq<byte>, top: nat, ghost end: nat,
                   m: map<Str, Str>, keys: seq<Str>, j: nat)
    returns (i: nat)
    requires j < |keys| && Elems(keys) <= m.Keys && |EncodeEntries(0x0a, keys, m, EncString)| <= end
    requires Written(buf[..], before, top, end, 0x0a, keys, j + 1, m, EncString)
    modifies buf
    ensures i <= end && Written(buf[..], before, i, end, 0x0a, keys, j, m, EncString)
  {
    hide EntryHeader;
    hide EncodeEntries;
    hide Splice;
    NextEntry(0x0a, keys, m, EncString, j);
    var v := m[keys[j]];
    i := PutFront(buf, before, top, v, EncodeEntries(0x0a, keys[j + 1..], m, EncString));
    i := PutHeaderOf(buf, before, i, |v|, 0x0a, keys, j, m, EncString);
  }

  /** AttributeFeatureSet and InstanceFeature. */
  method MarshalStrings(buf: array<byte>, end: nat, m: map<Str, Str>) returns (i: nat)
    requires |EncodeMap(0x0a, m, EncString)| <= end <= buf.Length
    modifies buf
    ensures i == end - |EncodeMap(0x0a, m, EncString)|
    ensures buf[..] == Splice(old(buf[..]), i, EncodeMap(0x0a, m, EncString))
  {
    hide EncodeMap;
    hide EncodeEntries;
    hide Splice;
    hide Written;
    hide EncString;
    var keys := KeysInOrder(m);
    ghost var before := buf[..];
    var j := |keys|;
    i := end;
    NoneWritten(0x0a, keys, m, EncString, before, end);
    while j > 0
      invariant 0 <= j <= |keys| && i <= end
      invariant Written(buf[..], before, i, end, 0x0a, keys, j, m, EncString)
    {
      j := j - 1;
      i := PutString(buf, before, i, end, m, keys, j);
    }
    AllWritten(0x0a, keys, m, EncString, buf[..], before, i, end);
  }

  /** One flag: a Nil value takes up no bytes. */
  method PutFlag(buf: array<byte>, ghost before: seq<byte>, top: nat, ghost end: nat,
                 m: map<Str, Nil>, keys: seq<Str>, j: nat)
    returns (i: nat)
    requires j < |keys| && Elems(keys) <= m.Keys && |EncodeEntries(0x0a, keys, m, EncNil)| <= end
    requires Written(buf[..], before, top, end, 0x0a, keys, j + 1, m, EncNil)
    modifies buf
    ensures i <= end && Written(buf[..], before, i, end, 0x0a, keys, j, m, EncNil)
  {
    hide EntryHeader;
    hide EncodeEntries;
    hide Splice;
    NextEntry(0x0a, keys, m, EncNil, j);
    assert EncNil(m[keys[j]]) + EncodeEntries(0x0a, keys[j + 1..], m, EncNil)
        == EncodeEntries(0x0a, keys[j + 1..], m, EncNil);
    i := PutHeaderOf(buf, before, top, 0, 0x0a, keys, j, m, EncNil);
  }

  /** FlagFeatureSet */
  method MarshalFlags(buf: array<byte>, end: nat, f: FlagFeatureSet) returns (i: nat)
    requires |EncFlags(f)| <= end <= buf.Length
    modifies buf
    ensures i == end - |EncFlags(f)|
    ensures buf[..] == Splice(old(buf[..]), i, EncFlags(f))
  {
    hide EncodeMap;
    hide EncodeEntries;
    hide Splice;
    hide Written;
    hide EncNil;
    var m := f.elements;
    var keys := KeysInOrder(m);
    ghost var before := buf[..];
    var j := |keys|;
    i := end;
    NoneWritten(0x0a, keys, m, EncNil, before, end);
    while j > 0
      invariant 0 <= j <= |keys| && i <= end
      invariant Written(buf[..], before, i, end, 0x0a, keys, j, m, EncNil)
    {
      j := j - 1;
      i := PutFlag(buf, before, i, end, m, keys, j);
    }
    AllWritten(0x0a, keys, m, EncNil, buf[..], before, i, end);
  }

  lemma {:induction false} InstanceSuffix(es: seq<InstanceFeature>, j: nat)
    requires j < |es|
    ensures EncInstanceList(es[j..])
         == [0x0a] + (EncodeVarint(|EncInstance(es[j])|) + (EncInstance(es[j]) + EncInstanceList(es[j + 1..])))
    ensures |EncInstanceList(es[j..])| <= |EncInstanceList(es)|
    decreases j
  {
    hide EncInstance;
    hide EncodeVarint;
    assert es[j..][1..] == es[j + 1..] && es[j..][0] == es[j];
    if j == 0 {
      assert es[0..] == es;
    } else {
      InstanceSuffix(es[1..], j - 1);
      assert es[1..][j - 1..] == es[j..];
      assert es[1..][j - 1..][1..] == es[j + 1..];
    }
  }

  method MarshalInstances(buf: array<byte>, end: nat, f: InstanceFeatureSet) returns (i: nat)
    requires |EncInstances(f)| <= end <= buf.Length
    modifies buf
    ensures i == end - |EncInstances(f)|
    ensures buf[..] == Splice(old(buf[..]), i, EncInstances(f))
  {
    hide EncInstance;
    hide EncodeVarint;
    hide Splice;
    var es := f.elements;
    ghost var before := buf[..];
    var j := |es|;
    i := end;
    assert EncInstanceList(es[|es|..]) == [];
    EmptySplice(before, end);
    while j > 0
      invariant 0 <= j <= |es|
      invariant i + |EncInstanceList(es[j..])| == end
      invariant buf[..] == Splice(before, i, EncInstanceList(es[j..]))
    {
      j := j - 1;
      InstanceSuffix(es, j);
      ghost var e := EncInstance(es[j]);
      ghost var x := EncInstanceList(es[j + 1..]);
      var base := i;
      i := MarshalInstance(buf, i, es[j]);
      SpliceInFront(before, base, x, e);
      i := PutVarintFront(buf, before, i, base - i, e + x);
      i := PutFront(buf, before, i, [0x0a], EncodeVarint(|e|) + (e + x));
    }
    assert es[0..] == es;
  }

  lemma EmptySplice(s: seq<byte>, at: nat)
    requires at <= |s|
    ensures Splice(s, at, []) == s
  {
  }

  method MarshalInstance(buf: array<byte>, end: nat, e: InstanceFeature) returns (i: nat)
    requires |EncInstance(e)| <= end <= buf.Length
    modifies buf
    ensures i == end - |EncInstance(e)|
    ensures buf[..] == Splice(old(buf[..]), i, EncInstance(e))
  {
    i := MarshalStrings(buf, end, e.attributes);
  }

  method MarshalAttributes(buf: array<byte>, end: nat, f: AttributeFeatureSet) returns (i: nat)
    requires |EncAttributes(f)| <= end <= buf.Length
    modifies buf
    ensures i == end - |EncAttributes(f)|
    ensures buf[..] == Splice(old(buf[..]), i, EncAttributes(f))
  {
    i := MarshalStrings(buf, end, f.elements);
  }

  /** One flag set: the nested message, then the header with its length. */
  method PutFlagSet(buf: array<byte>, ghost before: seq<byte>, top: nat, ghost end: nat,
                    m: map<Str, FlagFeatureSet>, keys: seq<Str>, j: nat)
    returns (i: nat)
    requires j < |keys| && Elems(keys) <= m.Keys && |EncodeEntries(0x0a, keys, m, EncFlags)| <= end
    requires Written(buf[..], before, top, end, 0x0a, keys, j + 1, m, EncFlags)
    modifies buf
    ensures i <= end && Written(buf[..], before, i, end, 0x0a, keys, j, m, EncFlags)
  {
    hide EntryHeader;
    hide EncodeEntries;
    hide Splice;
    hide EncFlags;
    NextEntry(0x0a, keys, m, EncFlags, j);
    i := MarshalFlags(buf, top, m[keys[j]]);
    SpliceInFront(before, top, EncodeEntries(0x0a, keys[j + 1..], m, EncFlags), EncFlags(m[keys[j]]));
    i := PutHeaderOf(buf, before, i, top - i, 0x0a, keys, j, m, EncFlags);
  }

  method MarshalFlagSets(buf: array<byte>, end: nat, m: map<Str, FlagFeatureSet>) returns (i: nat)
    requires |EncodeMap(0x0a, m, EncFlags)| <= end <= buf.Length
    modifies buf
    ensures i == end - |EncodeMap(0x0a, m, EncFlags)|
    ensures buf[..] == Splice(old(buf[..]), i, EncodeMap(0x0a, m, EncFlags))
  {
    hide EncodeMap;
    hide EncodeEntries;
    hide Splice;
    hide Written;
    hide EncFlags;
    var keys := KeysInOrder(m);
    ghost var before := buf[..];
    var j := |keys|;
    i := end;
    NoneWritten(0x0a, keys, m, EncFlags, before, end);
    while j > 0
      invariant 0 <= j <= |keys| && i <= end
      invariant Written(buf[..], before, i, end, 0x0a, keys, j, m, EncFlags)
    {
      j := j - 1;
      i := PutFlagSet(buf, before, i, end, m, keys, j);
    }
    AllWritten(0x0a, keys, m, EncFlags, buf[..], before, i, end);
  }

  /** One attribute set. */
  method PutAttributeSet(buf: array<byte>, ghost before: seq<byte>, top: nat, ghost end: nat,
                         m: map<Str, AttributeFeatureSet>, keys: seq<Str>, j: nat)
    returns (i: nat)
    requires j < |keys| && Elems(keys) <= m.Keys && |EncodeEntries(0x12, keys, m, EncAttributes)| <= end
    requires Written(buf[..], before, top, end, 0x12, keys, j + 1, m, EncAttributes)
    modifies buf
    ensures i <= end && Written(buf[..], before, i, end, 0x12, keys, j, m, EncAttributes)
  {
    hide EntryHeader;
    hide EncodeEntries;
    hide Splice;
    hide EncAttributes;
    NextEntry(0x12, keys, m, EncAttributes, j);
    i := MarshalAttributes(buf, top, m[keys[j]]);
    SpliceInFront(before, top, EncodeEntries(0x12, keys[j + 1..], m, EncAttributes), EncAttributes(m[keys[j]]));
    i := PutHeaderOf(buf, before, i, top - i, 0x12, keys, j, m, EncAttributes);
  }

  method MarshalAttributeSets(buf: array<byte>, end: nat, m: map<Str, AttributeFeatureSet>) returns (i: nat)
    requires |EncodeMap(0x12, m, EncAttributes)| <= end <= buf.Length
    modifies buf
    ensures i == end - |EncodeMap(0x12, m, EncAttributes)|
    ensures buf[..] == Splice(old(buf[..]), i, EncodeMap(0x12, m, EncAttributes))
  {
    hide EncodeMap;
    hide EncodeEntries;
    hide Splice;
    hide Written;
    hide EncAttributes;
    var keys := KeysInOrder(m);
    ghost var before := buf[..];
    var j := |keys|;
    i := end;
    NoneWritten(0x12, keys, m, EncAttributes, before, end);
    while j > 0
      invariant 0 <= j <= |keys| && i <= end
      invariant Written(buf[..], before, i, end, 0x12, keys, j, m, EncAttributes)
    {
      j := j - 1;
      i := PutAttributeSet(buf, before, i, end, m, keys, j);
    }
    AllWritten(0x12, keys, m, EncAttributes, buf[..], before, i, end);
  }

  /** One instance set. */
  method PutInstanceSet(buf: array<byte>, ghost before: seq<byte>, top: nat, ghost end: nat,
                        m: map<Str, InstanceFeatureSet>, keys: seq<Str>, j: nat)
    returns (i: nat)
    requires j < |keys| && Elems(keys) <= m.Keys && |EncodeEntries(0x1a, keys, m, EncInstances)| <= end
    requires Written(buf[..], before, top, end, 0x1a, keys, j + 1, m, EncInstances)
    modifies buf
    ensures i <= end && Written(buf[..], before, i, end, 0x1a, keys, j, m, EncInstances)
  {
    hide EntryHeader;
    hide EncodeEntries;
    hide Splice;
    hide EncInstances;
    NextEntry(0x1a, keys, m, EncInstances, j);
    i := MarshalInstances(buf, top, m[keys[j]]);
    SpliceInFront(before, top, EncodeEntries(0x1a, keys[j + 1..], m, EncInstances), EncInstances(m[keys[j]]));
    i := PutHeaderOf(buf, before, i, top - i, 0x1a, keys, j, m, EncInstances);
  }

  method MarshalInstanceSets(buf: array<byte>, end: nat, m: map<Str, InstanceFeatureSet>) returns (i: nat)
    requires |EncodeMap(0x1a, m, EncInstances)| <= end <= buf.Length
    modifies buf
    ensures i == end - |EncodeMap(0x1a, m, EncInstances)|
    ensures buf[..] == Splice(old(buf[..]), i, EncodeMap(0x1a, m, EncInstances))
  {
    hide EncodeMap;
    hide EncodeEntries;
    hide Splice;
    hide Written;
    hide EncInstances;
    var keys := KeysInOrder(m);
    ghost var before := buf[..];
    var j := |keys|;
    i := end;
    NoneWritten(0x1a, keys, m, EncInstances, before, end);
    while j > 0
      invariant 0 <= j <= |keys| && i <= end
      invariant Written(buf[..], before, i, end, 0x1a, keys, j, m, EncInstances)
    {
      j := j - 1;
      i := PutInstanceSet(buf, before, i, end, m, keys, j);
    }
    AllWritten(0x1a, keys, m, EncInstances, buf[..], before, i, end);
  }

  /** Fills exactly the last |EncFeatures(f)| bytes before end, whatever the buffer's length. */
  method MarshalFeatures(buf: array<byte>, end: nat, f: Features) returns (i: nat)
    requires |EncFeatures(f)| <= end <= buf.Length
    modifies buf
    ensures i == end - |EncFeatures(f)|
    ensures buf[..] == Splice(old(buf[..]), i, EncFeatures(f))
  {
    hide EncodeMap;
    hide Splice;
    ghost var before := buf[..];
    ghost var e1 := EncodeMap(0x0a, f.flags, EncFlags);
    ghost var e2 := EncodeMap(0x12, f.attributes, EncAttributes);
    ghost var e3 := EncodeMap(0x1a, f.instances, EncInstances);
    i := MarshalInstanceSets(buf, end, f.instances);
    SpliceInFront(before, i, e3, e2);
    i := MarshalAttributeSets(buf, i, f.attributes);
    SpliceInFront(before, i, e2 + e3, e1);
    i := MarshalFlagSets(buf, i, f.flags);
    assert e1 + (e2 + e3) == EncFeatures(f);
  }

  // ----- Size -----

  lemma EntrySize(tag: byte, key: Str, value: seq<byte>)
    ensures var body := 1 + |key| + Sov(|key|) + 1 + |value| + Sov(|value|);
      |Entry(tag, key, value)| == body + 1 + Sov(body)
  {
    hide Sov;
    hide EncodeVarint;
    SovIsEncodedLength(|key|);
    SovIsEncodedLength(|value|);
    SovIsEncodedLength(|EntryBody(key, value)|);
  }

  /** The encoded size of the entries with the given keys. */
  ghost function SizeOf<V>(tag: byte, keys: set<Str>, m: map<Str, V>, enc: V -> seq<byte>): nat
    requires keys <= m.Keys
  {
    StrOrder();
    |EncodeEntries(tag, SortedKeys(LessStr, keys), m, enc)|
  }

  lemma {:induction false} InsertSize<V>(tag: byte, k: Str, keys: seq<Str>, m: map<Str, V>, enc: V -> seq<byte>)
    requires Elems(keys) <= m.Keys && k in m
    ensures Elems(Insert(LessStr, k, keys)) <= m.Keys
    ensures |EncodeEntries(tag, Insert(LessStr, k, keys), m, enc)|
         == |Entry(tag, k, enc(m[k]))| + |EncodeEntries(tag, keys, m, enc)|
    decreases keys
  {
    hide Entry;
    hide LessStr;
    InsertElems(LessStr, k, keys);
    var ins := Insert(LessStr, k, keys);
    if keys != [] && !LessStr(k, keys[0]) {
      assert keys[0] in Elems(keys) && Elems(keys[1..]) <= Elems(keys);
      InsertSize(tag, k, keys[1..], m, enc);
      assert ins[0] == keys[0] && ins[1..] == Insert(LessStr, k, keys[1..]);
    } else {
      assert ins[0] == k && ins[1..] == keys;
    }
  }

  /** The sum over the entries does not depend on which one is taken first. */
  lemma TakeOne<V>(tag: byte, keys: set<Str>, k: Str, m: map<Str, V>, enc: V -> seq<byte>)
    requires keys <= m.Keys && k in keys
    ensures SizeOf(tag, keys, m, enc) == |Entry(tag, k, enc(m[k]))| + SizeOf(tag, keys - {k}, m, enc)
  {
    hide Entry;
    hide EncodeEntries;
    hide LessStr;
    StrOrder();
    var rest := SortedKeys(LessStr, keys - {k});
    assert k !in rest by { assert k in rest ==> k in Elems(rest); }
    InsertSorted(LessStr, k, rest);
    InsertElems(LessStr, k, rest);
    SortedUnique(LessStr, Insert(LessStr, k, rest), SortedKeys(LessStr, keys));
    InsertSize(tag, k, rest, m, enc);
  }

  method StringsSize(m: map<Str, Str>) returns (n: nat)
    ensures n == |EncodeMap(0x0a, m, EncString)|
  {
    hide Entry;
    hide SizeOf;
    hide EncodeMap;
    hide Sov;
    n := 0;
    WholeSize(0x0a, m, EncString);
    var todo := m.Keys;
    while todo != {}
      invariant todo <= m.Keys
      invariant n + SizeOf(0x0a, todo, m, EncString) == |EncodeMap(0x0a, m, EncString)|
      decreases todo
    {
      var k :| k in todo;
      TakeOne(0x0a, todo, k, m, EncString);
      EntrySize(0x0a, k, EncString(m[k]));
      var mapEntrySize := 1 + |k| + Sov(|k|) + 1 + |m[k]| + Sov(|m[k]|);
      n := n + mapEntrySize + 1 + Sov(mapEntrySize);
      todo := todo - {k};
    }
    NothingLeft(0x0a, m, EncString);
  }

  lemma WholeSize<V>(tag: byte, m: map<Str, V>, enc: V -> seq<byte>)
    ensures SizeOf(tag, m.Keys, m, enc) == |EncodeMap(tag, m, enc)|
  {
  }

  lemma NothingLeft<V>(tag: byte, m: map<Str, V>, enc: V -> seq<byte>)
    ensures SizeOf(tag, {}, m, enc) == 0
  {
    StrOrder();
    ElemsEmpty(SortedKeys(LessStr, {}));
  }

  method FlagsSize(f: FlagFeatureSet) returns (n: nat)
    ensures n == |EncFlags(f)|
  {
    hide Entry;
    hide SizeOf;
    hide EncodeMap;
    hide Sov;
    n := 0;
    var m := f.elements;
    WholeSize(0x0a, m, EncNil);
    var todo := m.Keys;
    while todo != {}
      invariant todo <= m.Keys
      invariant n + SizeOf(0x0a, todo, m, EncNil) == |EncFlags(f)|
      decreases todo
    {
      var k :| k in todo;
      TakeOne(0x0a, todo, k, m, EncNil);
      EntrySize(0x0a, k, []);
      var mapEntrySize := 1 + |k| + Sov(|k|) + 1 + 0 + Sov(0);
      n := n + mapEntrySize + 1 + Sov(mapEntrySize);
      todo := todo - {k};
    }
    NothingLeft(0x0a, m, EncNil);
  }

  method InstancesSize(f: InstanceFeatureSet) returns (n: nat)
    ensures n == |EncInstances(f)|
  {
    hide EncInstance;
    hide EncodeVarint;
    hide Sov;
    n := 0;
    var es := f.elements;
    var j := 0;
    assert es[0..] == es;
    while j < |es|
      invariant 0 <= j <= |es|
      invariant n + |EncInstanceList(es[j..])| == |EncInstanceList(es)|
    {
      InstanceSuffix(es, j);
      var l := InstanceSize(es[j]);
      SovIsEncodedLength(l);
      n := n + 1 + l + Sov(l);
      j := j + 1;
    }
    assert EncInstanceList(es[|es|..]) == [];
  }

  method InstanceSize(e: InstanceFeature) returns (n: nat)
    ensures n == |EncInstance(e)|
  {
    n := StringsSize(e.attributes);
  }

  method AttributesSize(f: AttributeFeatureSet) returns (n: nat)
    ensures n == |EncAttributes(f)|
  {
    n := StringsSize(f.elements);
  }

  method FlagSetsSize(m: map<Str, FlagFeatureSet>) returns (n: nat)
    ensures n == |EncodeMap(0x0a, m, EncFlags)|
  {
    hide Entry;
    hide SizeOf;
    hide EncodeMap;
    hide Sov;
    hide EncFlags;
    n := 0;
    WholeSize(0x0a, m, EncFlags);
    var todo := m.Keys;
    while todo != {}
      invariant todo <= m.Keys
      invariant n + SizeOf(0x0a, todo, m, EncFlags) == |EncodeMap(0x0a, m, EncFlags)|
      decreases todo
    {
      var k :| k in todo;
      TakeOne(0x0a, todo, k, m, EncFlags);
      EntrySize(0x0a, k, EncFlags(m[k]));
      var l := FlagsSize(m[k]);
      var mapEntrySize := 1 + |k| + Sov(|k|) + 1 + l + Sov(l);
      n := n + mapEntrySize + 1 + Sov(mapEntrySize);
      todo := todo - {k};
    }
    NothingLeft(0x0a, m, EncFlags);
  }

  method AttributeSetsSize(m: map<Str, AttributeFeatureSet>) returns (n: nat)
    ensures n == |EncodeMap(0x12, m, EncAttributes)|
  {
    hide Entry;
    hide SizeOf;
    hide EncodeMap;
    hide Sov;
    hide EncAttributes;
    n := 0;
    WholeSize(0x12, m, EncAttributes);
    var todo := m.Keys;
    while todo != {}
      invariant todo <= m.Keys
      invariant n + SizeOf(0x12, todo, m, EncAttributes) == |EncodeMap(0x12, m, EncAttributes)|
      decreases todo
    {
      var k :| k in todo;
      TakeOne(0x12, todo, k, m, EncAttributes);
      EntrySize(0x12, k, EncAttributes(m[k]));
      var l := AttributesSize(m[k]);
      var mapEntrySize := 1 + |k| + Sov(|k|) + 1 + l + Sov(l);
      n := n + mapEntrySize + 1 + Sov(mapEntrySize);
      todo := todo - {k};
    }
    NothingLeft(0x12, m, EncAttributes);
  }

  method InstanceSetsSize(m: map<Str, InstanceFeatureSet>) returns (n: nat)
    ensures n == |EncodeMap(0x1a, m, EncInstances)|
  {
    hide Entry;
    hide SizeOf;
    hide EncodeMap;
    hide Sov;
    hide EncInstances;
    n := 0;
    WholeSize(0x1a, m, EncInstances);
    var todo := m.Keys;
    while todo != {}
      invariant todo <= m.Keys
      invariant n + SizeOf(0x1a, todo, m, EncInstances) == |EncodeMap(0x1a, m, EncInstances)|
      decreases todo
    {
      var k :| k in todo;
      TakeOne(0x1a, todo, k, m, EncInstances);
      EntrySize(0x1a, k, EncInstances(m[k]));
      var l := InstancesSize(m[k]);
      var mapEntrySize := 1 + |k| + Sov(|k|) + 1 + l + Sov(l);
      n := n + mapEntrySize + 1 + Sov(mapEntrySize);
      todo := todo - {k};
    }
    NothingLeft(0x1a, m, EncInstances);
  }

  /** Features.Size: three sums, each in whatever order its map yields the keys. */
  method FeaturesSize(f: Features) returns (n: nat)
    ensures n == |EncFeatures(f)|
  {
    hide EncodeMap;
    var flags := FlagSetsSize(f.flags);
    var attributes := AttributeSetsSize(f.attributes);
    var instances := InstanceSetsSize(f.instances);
    n := flags + attributes + instances;
  }

  /** Marshal: a buffer of Size bytes is filled from end to start without a gap. */
  method MarshalWhole(f: Features) returns (bytes: seq<byte>)
    ensures bytes == EncFeatures(f)
  {
    hide EncFeatures;
    var size := FeaturesSize(f);
    var buf := new byte[size](_ => 0);
    var i := MarshalFeatures(buf, size, f);
    bytes := buf[i..];
  }
}
