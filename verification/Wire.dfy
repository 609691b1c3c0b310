/**
The protobuf wire primitives of generated.pb.go: base-128 varints, length
prefixes, tags, and the skipping of unknown fields. Indices are Go ints, so
every sum that the source computes on them is taken modulo 2^64.
*/
module Wire {
  import opened Basics
  import Words

  const TWO31: int := 0x8000_0000
  const TWO32: int := 0x1_0000_0000
  const TWO63: int := 0x8000_0000_0000_0000
  const TWO64: int := 0x1_0000_0000_0000_0000

  type byte = b: int | 0 <= b < 256

  /** A Go byte slice or string: its length fits in an int. */
  type Bytes = d: seq<byte> | |d| < TWO63

  datatype Error =
    | IntOverflow
    | UnexpectedEOF
    | InvalidLength
    | UnexpectedEndOfGroup
    | EndGroupForNonGroup
    | IllegalTag
    | IllegalWireType
    | WrongWireType

  // ----- 64-bit arithmetic -----

  /** The Go conversion int(x) of an uint64. */
  function ToInt64(x: nat): int
    requires x < TWO64
  {
    if x < TWO63 then x else x - TWO64
  }

  /** Two's complement wrap-around of an int sum. */
  function Wrap64(x: int): (r: int)
    ensures -TWO63 <= r < TWO63
    ensures -TWO63 <= x < TWO63 ==> r == x
    ensures TWO63 <= x < TWO64 ==> r < 0
  {
    (x + TWO63) % TWO64 - TWO63
  }

  /** int32(wire >> 3) */
  function FieldNum(wire: nat): int
  {
    var f := (wire / 8) % TWO32;
    if f < TWO31 then f else f - TWO32
  }

  /** wire & 7 */
  function WireType(wire: nat): nat
  {
    wire % 8
  }

  function Pow2(n: nat): (p: nat)
    ensures p > 0
  {
    if n == 0 then 1 else 2 * Pow2(n - 1)
  }

  // ----- Varints -----

  function EncodeVarint(v: nat): (e: seq<byte>)
    ensures |e| > 0
  {
    if v < 128 then [v] else [v % 128 + 128] + EncodeVarint(v / 128)
  }

  /** math/bits.Len64: the number of bits of x. */
  function Len64(x: nat): nat {
    if x == 0 then 0 else 1 + Len64(x / 2)
  }

  /** sovGenerated: x|1 has x's bit length, except that zero counts as one bit. */
  function Sov(x: nat): nat {
    (Len64(if x % 2 == 0 then x + 1 else x) + 6) / 7
  }

  lemma {:induction false} Len64Sevens(x: nat)
    requires x >= 128
    ensures Len64(x) == 7 + Len64(x / 128)
  {
    assert x / 2 / 2 / 2 / 2 / 2 / 2 / 2 == x / 128;
    assert Len64(x) == 1 + Len64(x / 2);
    assert Len64(x / 2) == 1 + Len64(x / 2 / 2);
    assert Len64(x / 2 / 2) == 1 + Len64(x / 2 / 2 / 2);
    assert Len64(x / 2 / 2 / 2) == 1 + Len64(x / 2 / 2 / 2 / 2);
    assert Len64(x / 2 / 2 / 2 / 2) == 1 + Len64(x / 2 / 2 / 2 / 2 / 2);
    assert Len64(x / 2 / 2 / 2 / 2 / 2) == 1 + Len64(x / 2 / 2 / 2 / 2 / 2 / 2);
    assert Len64(x / 2 / 2 / 2 / 2 / 2 / 2) == 1 + Len64(x / 2 / 2 / 2 / 2 / 2 / 2 / 2);
  }

  lemma {:induction false} Len64Even(x: nat)
    requires x % 2 == 0 && x > 0
    ensures Len64(x + 1) == Len64(x)
  {
    assert (x + 1) / 2 == x / 2;
  }

  lemma {:induction false} Len64Small(x: nat)
    requires 0 < x < 128
    ensures 1 <= Len64(x) <= 7
  {
    var y := x / 2 / 2 / 2 / 2 / 2 / 2;
    assert y < 2 && Len64(y) <= 1;
    assert Len64(x) <= 1 + Len64(x / 2);
    assert Len64(x / 2) <= 1 + Len64(x / 2 / 2);
    assert Len64(x / 2 / 2) <= 1 + Len64(x / 2 / 2 / 2);
    assert Len64(x / 2 / 2 / 2) <= 1 + Len64(x / 2 / 2 / 2 / 2);
    assert Len64(x / 2 / 2 / 2 / 2) <= 1 + Len64(x / 2 / 2 / 2 / 2 / 2);
    assert Len64(x / 2 / 2 / 2 / 2 / 2) <= 1 + Len64(y);
  }

  /** The closed-form size is the length of the encoding. */
  lemma {:induction false} SovIsEncodedLength(v: nat)
    ensures |EncodeVarint(v)| == Sov(v)
  {
    var w := if v % 2 == 0 then v + 1 else v;
    if v < 128 {
      Len64Small(w);
    } else {
      SovIsEncodedLength(v / 128);
      Len64Sevens(w);
      assert w / 128 == v / 128;
      if (v / 128) % 2 == 0 {
        Len64Even(v / 128);
      }
    }
  }

  /**
  The groups of seven bits from index i on, entered with the given shift: their
  value, before truncation to 64 bits, and the index after the last byte.
  */
  function ReadGroups(d: Bytes, i: nat, shift: nat): (r: Result<(nat, nat), Error>)
    requires i <= |d|
    ensures r.Ok? ==> i < r.value.1 <= |d|
    decreases |d| - i
  {
    if shift >= 64 then Err(IntOverflow)
    else if i >= |d| then Err(UnexpectedEOF)
    else if d[i] < 128 then Ok((d[i], i + 1))
    else
      var (high, j) :- ReadGroups(d, i + 1, shift + 7);
      Ok((d[i] % 128 + 128 * high, j))
  }

  /** A varint read into an uint64: its value modulo 2^64 and the index after it. */
  function ReadVarint(d: Bytes, i: nat): (r: Result<(nat, nat), Error>)
    requires i <= |d|
    ensures r.Ok? ==> r.value.0 < TWO64 && i < r.value.1 <= |d|
  {
    var (v, j) :- ReadGroups(d, i, 0);
    Ok((v % TWO64, j))
  }

  /** r is the total once wire holds the groups below the shift and rest those from it on. */
  ghost predicate Accumulated(wire: nat, shift: nat, rest: Result<(nat, nat), Error>, r: Result<(nat, nat), Error>) {
    match rest
    case Err(e) => r == Err(e)
    case Ok((v, j)) => r == Ok(((wire + Pow2(shift) * v) % TWO64, j))
  }

  lemma ModAbsorb(a: nat, b: nat)
    ensures (a % TWO64 + b) % TWO64 == (a + b) % TWO64
  {
    var q := a / TWO64;
    assert a + b == a % TWO64 + b + TWO64 * q;
    ModPlusMultiple(a % TWO64 + b, q);
  }

  lemma {:induction false} ModPlusMultiple(x: nat, q: nat)
    ensures (x + TWO64 * q) % TWO64 == x % TWO64
  {
    if q > 0 {
      ModPlusMultiple(x, q - 1);
      assert x + TWO64 * q == x + TWO64 * (q - 1) + TWO64;
    }
  }

  lemma Pow2Seven(shift: nat)
    ensures Pow2(shift + 7) == 128 * Pow2(shift)
  {
    assert Pow2(shift + 2) == 2 * Pow2(shift + 1) == 4 * Pow2(shift);
    assert Pow2(shift + 4) == 2 * Pow2(shift + 3) == 4 * Pow2(shift + 2);
    assert Pow2(shift + 6) == 2 * Pow2(shift + 5) == 4 * Pow2(shift + 4);
  }

  lemma AccumulateStep(wire: nat, shift: nat, chunk: nat, high: nat)
    ensures ((wire + chunk * Pow2(shift)) % TWO64 + Pow2(shift + 7) * high) % TWO64
         == (wire + Pow2(shift) * (chunk + 128 * high)) % TWO64
  {
    var p := Pow2(shift);
    Pow2Seven(shift);
    hide Pow2;
    assert p * (chunk + 128 * high) == chunk * p + 128 * p * high;
    ModAbsorb(wire + chunk * p, 128 * p * high);
  }

  /** One byte moves from the rest into the accumulator, or ends the varint. */
  lemma AccumulatedStep(d: Bytes, i: nat, wire: nat, shift: nat, r: Result<(nat, nat), Error>)
    requires i < |d| && shift < 64
    requires Accumulated(wire, shift, ReadGroups(d, i, shift), r)
    ensures var wire' := (wire + (d[i] % 128) * Pow2(shift)) % TWO64;
      if d[i] < 128 then r == Ok((wire', i + 1))
      else Accumulated(wire', shift + 7, ReadGroups(d, i + 1, shift + 7), r)
  {
    var rest := ReadGroups(d, i + 1, shift + 7);
    if d[i] >= 128 && rest.Ok? {
      AccumulateStep(wire, shift, d[i] % 128, rest.value.0);
    }
    hide Pow2;
    assert (d[i] % 128) * Pow2(shift) == Pow2(shift) * (d[i] % 128);
  }

  // ----- The accumulator as a machine word -----

  lemma {:induction false} ScaleSum(k: nat, a: nat, b: nat)
    ensures Words.Scale(k, a) + Words.Scale(k, b) == Words.Scale(k, a + b)
  {
    if k > 0 {
      ScaleSum(k - 1, a, b);
    }
  }

  lemma {:induction false} ScaleIsPow2(k: nat, v: nat)
    ensures Words.Scale(k, v) == v * Pow2(7 * k)
  {
    hide Pow2;
    if k == 0 {
      PowZero();
    } else {
      ScaleIsPow2(k - 1, v);
      Pow2Seven(7 * (k - 1));
      assert 7 * (k - 1) + 7 == 7 * k;
      var p := Pow2(7 * (k - 1));
      assert 128 * (v * p) == v * (128 * p);
    }
  }

  lemma PowZero()
    ensures Pow2(0) == 1
  {
  }

  lemma ScaleNine(v: nat)
    ensures Words.Scale(9, v) == TWO63 * v
  {
    ThreeUp(0, v);
    ThreeUp(3, v);
    ThreeUp(6, v);
  }

  lemma ThreeUp(k: nat, v: nat)
    ensures Words.Scale(k + 3, v) == 0x20_0000 * Words.Scale(k, v)
  {
    assert Words.Scale(k + 1, v) == 128 * Words.Scale(k, v);
    assert Words.Scale(k + 2, v) == 128 * Words.Scale(k + 1, v);
  }

  lemma {:induction false} ScaleGrows(k: nat, n: nat)
    requires k <= n
    ensures Words.Scale(k, 1) <= Words.Scale(n, 1)
    decreases n - k
  {
    if k < n {
      ScaleGrows(k + 1, n);
      ScaleUp(k, 1);
    }
  }

  lemma {:induction false} ScaleUp(k: nat, v: nat)
    ensures Words.Scale(k + 1, v) == 128 * Words.Scale(k, v) == Words.Scale(k, 128 * v)
  {
    if k > 0 {
      ScaleUp(k - 1, v);
    }
  }

  /** Where the word has room, the or adds the group at its weight, modulo 2^64. */
  lemma PutIsSum(acc: bv64, c: nat, shift: bv64, k: nat)
    requires k <= 9 && shift == Words.ShiftOf(k) && shift < 64 && Words.Room(acc, shift) && c < 128
    ensures Words.Val(Words.Put(acc, Words.Word7(c), shift)) == (Words.Val(acc) + c * Pow2(7 * k)) % TWO64
  {
    hide Words.Val;
    hide Words.Put;
    hide Words.Room;
    hide Words.Word7;
    hide Words.Scale;
    hide Pow2;
    Words.ShiftTable(k);
    Words.Word7Value(c);
    Words.ValBound(acc, shift, k);
    ScaleIsPow2(k, c);
    ScaleNine(1);
    if k == 9 {
      LastPut(acc, c);
    } else {
      Words.OrAdds(acc, Words.Word7(c), shift, k);
      ScaleSum(k, 1, c);
      ScaleSum(k, 1 + c, 127 - c);
      ScaleUp(k, 1);
      ScaleGrows(k + 1, 9);
    }
  }

  /** At the last shift all but one bit of the group is lost, as it is modulo 2^64. */
  lemma LastPut(acc: bv64, c: nat)
    requires Words.Room(acc, 63) && c < 128 && Words.Val(acc) < TWO63
    ensures Words.Val(Words.Put(acc, Words.Word7(c), 63)) == (Words.Val(acc) + Words.Scale(9, c)) % TWO64
  {
    hide Words.Val;
    hide Words.Put;
    hide Words.Room;
    hide Words.Word7;
    hide Words.Scale;
    Words.ShiftTable(9);
    Words.Word7Value(c);
    var chunk := Words.Word7(c);
    Words.LastGroup(acc, chunk);
    Words.OrAdds(acc, chunk & 1, 63, 9);
    ScaleNine(c);
    ScaleNine(c % 2);
    ModPlusMultiple(Words.Val(acc) + TWO63 * (c % 2), c / 2);
    assert TWO63 * c == TWO63 * (c % 2) + TWO64 * (c / 2);
  }

  /**
  The shift loop of the decoders: groups of seven bits go into an uint64 with a
  bitwise or. The result is the number that the word stands for.
  */
  method DecodeVarint(d: Bytes, start: nat) returns (r: Result<(nat, nat), Error>)
    requires start <= |d|
    ensures r == ReadVarint(d, start)
  {
    hide Pow2;
    hide Words.Val;
    hide Words.Room;
    hide Words.Word7;
    hide Words.Put;
    hide ReadVarint;
    hide ReadGroups;
    hide Accumulated;
    var i := start;
    var wire: bv64 := 0;
    var shift: bv64 := 0;
    ghost var k := 0;
    AccumulatedNothing(d, start);
    while true
      invariant start <= i <= |d| && k <= 10 && shift == Words.ShiftOf(k)
      invariant shift < 64 ==> Words.Room(wire, shift)
      invariant Accumulated(Words.Val(wire), 7 * k, ReadGroups(d, i, 7 * k), ReadVarint(d, start))
      decreases |d| - i
    {
      Words.ShiftTable(k);
      AccumulatedEnds(d, i, Words.Val(wire), 7 * k, ReadVarint(d, start));
      if shift >= 64 { return Err(IntOverflow); }
      if i >= |d| { return Err(UnexpectedEOF); }
      var b := d[i];
      AccumulatedStep(d, i, Words.Val(wire), 7 * k, ReadVarint(d, start));
      PutIsSum(wire, b % 128, shift, k);
      Words.Word7Value(b % 128);
      if k <= 8 {
        Words.RoomAbove(wire, Words.Word7(b % 128), shift);
      }
      i := i + 1;
      wire := Words.Put(wire, Words.Word7(b % 128), shift);
      if b < 128 { return Ok((Words.Val(wire), i)); }
      shift := shift + 7;
      k := k + 1;
    }
  }

  lemma AccumulatedNothing(d: Bytes, start: nat)
    requires start <= |d|
    ensures Accumulated(Words.Val(0), 0, ReadGroups(d, start, 0), ReadVarint(d, start))
    ensures Words.ShiftOf(0) == 0 && Words.Room(0, 0)
  {
    assert Pow2(0) == 1;
  }

  lemma AccumulatedEnds(d: Bytes, i: nat, wire: nat, shift: nat, r: Result<(nat, nat), Error>)
    requires i <= |d| && Accumulated(wire, shift, ReadGroups(d, i, shift), r)
    ensures shift >= 64 ==> r == Err(IntOverflow)
    ensures shift < 64 && i >= |d| ==> r == Err(UnexpectedEOF)
  {
  }

  /** The bytes e stand in d at index i. */
  ghost predicate At(d: seq<byte>, i: nat, e: seq<byte>) {
    i + |e| <= |d| && d[i..i + |e|] == e
  }

  lemma AtConcat(d: seq<byte>, i: nat, a: seq<byte>, b: seq<byte>)
    requires At(d, i, a + b)
    ensures At(d, i, a) && At(d, i + |a|, b)
  {
    assert a == (a + b)[..|a|] && b == (a + b)[|a|..];
    assert d[i..i + |a|] == d[i..i + |a + b|][..|a|];
    assert d[i + |a|..i + |a| + |b|] == d[i..i + |a + b|][|a|..];
  }

  /** One more than the largest value that the loop can still read from this shift on. */
  function Room(shift: nat): (r: nat)
    ensures r > 0
    decreases 64 - shift
  {
    if shift >= 64 then 1 else 128 * Room(shift + 7)
  }

  lemma RoomForUint64()
    ensures Room(0) >= TWO64
  {
    assert Room(49) == 128 * 128 * 128;
    assert Room(28) == 128 * 128 * 128 * Room(49);
    assert Room(7) == 128 * 128 * 128 * Room(28);
  }

  /** The decode loop undoes EncodeVarint, from any shift that leaves room for the value. */
  lemma {:induction false} GroupsInverse(d: Bytes, i: nat, v: nat, shift: nat)
    requires At(d, i, EncodeVarint(v))
    requires v < Room(shift) && shift < 64
    ensures ReadGroups(d, i, shift) == Ok((v, i + |EncodeVarint(v)|))
    decreases v
  {
    assert d[i] == EncodeVarint(v)[0];
    if v >= 128 {
      AtConcat(d, i, [v % 128 + 128], EncodeVarint(v / 128));
      GroupsInverse(d, i + 1, v / 128, shift + 7);
    }
  }

  lemma VarintInverse(d: Bytes, i: nat, v: nat)
    requires v < TWO64 && At(d, i, EncodeVarint(v))
    ensures ReadVarint(d, i) == Ok((v, i + |EncodeVarint(v)|))
  {
    RoomForUint64();
    GroupsInverse(d, i, v, 0);
  }

  // ----- Length prefixes -----

  /** A length prefix at index i: the span [start, post) of the payload it announces. */
  function ReadSpan(d: Bytes, i: nat): (r: Result<(nat, nat), Error>)
    requires i <= |d|
    ensures r.Ok? ==> i < r.value.0 <= r.value.1 <= |d|
  {
    var (w, start) :- ReadVarint(d, i);
    var n := ToInt64(w);
    if n < 0 then Err(InvalidLength)
    else
      var post := Wrap64(start + n);
      if post < 0 then Err(InvalidLength)
      else if post > |d| then Err(UnexpectedEOF)
      else Ok((start, post))
  }

  method DecodeSpan(d: Bytes, i: nat) returns (r: Result<(nat, nat), Error>)
    requires i <= |d|
    ensures r == ReadSpan(d, i)
  {
    var v := DecodeVarint(d, i);
    if v.Err? { return Err(v.error); }
    var n := ToInt64(v.value.0);
    if n < 0 { return Err(InvalidLength); }
    var post := Wrap64(v.value.1 + n);
    if post < 0 { return Err(InvalidLength); }
    if post > |d| { return Err(UnexpectedEOF); }
    return Ok((v.value.1, post));
  }

  /** A length-delimited payload. */
  function EncodeSpan(payload: seq<byte>): seq<byte> {
    EncodeVarint(|payload|) + payload
  }

  lemma SpanInverse(d: Bytes, i: nat, payload: seq<byte>)
    requires At(d, i, EncodeSpan(payload))
    ensures var r := ReadSpan(d, i);
      && r.Ok? && r.value.1 == i + |EncodeSpan(payload)|
      && r.value.0 == r.value.1 - |payload|
      && d[r.value.0..r.value.1] == payload
  {
    AtConcat(d, i, EncodeVarint(|payload|), payload);
    VarintInverse(d, i, |payload|);
  }

  // ----- Unknown fields -----

  /** One iteration of skipGenerated: the next index, or negative on overflow, and the group depth. */
  function SkipStep(d: Bytes, i: nat, depth: nat): (r: Result<(int, nat), Error>)
    requires i < |d|
    ensures r.Ok? && r.value.0 >= 0 ==> i < r.value.0 < TWO63
  {
    var (wire, j) :- ReadVarint(d, i);
    match WireType(wire)
    case 0 =>
      var (_, k) :- ReadVarint(d, j);
      Ok((k, depth))
    case 1 => Ok((Wrap64(j + 8), depth))
    case 2 =>
      var (w, k) :- ReadVarint(d, j);
      var length := ToInt64(w);
      if length < 0 then Err(InvalidLength) else Ok((Wrap64(k + length), depth))
    case 3 => Ok((j, depth + 1))
    case 4 => if depth == 0 then Err(UnexpectedEndOfGroup) else Ok((j, depth - 1))
    case 5 => Ok((Wrap64(j + 4), depth))
    case _ => Err(IllegalWireType)
  }

  /**
  skipGenerated, entered at index i inside `depth` open groups: the index after
  the field, which may lie beyond the end of the data.
  */
  function SkipFrom(d: Bytes, i: nat, depth: nat): (r: Result<nat, Error>)
    ensures r.Ok? ==> i < r.value < TWO63
    decreases |d| - i
  {
    if i >= |d| then Err(UnexpectedEOF)
    else
      var (next, depth') :- SkipStep(d, i, depth);
      if next < 0 then Err(InvalidLength)
      else if depth' == 0 then Ok(next)
      else SkipFrom(d, next, depth')
  }

  method SkipField(d: Bytes) returns (r: Result<nat, Error>)
    ensures r == SkipFrom(d, 0, 0)
  {
    hide ReadVarint;
    hide Wrap64;
    var i: int := 0;
    var depth := 0;
    while i < |d|
      invariant 0 <= i && 0 <= depth
      invariant SkipFrom(d, i, depth) == SkipFrom(d, 0, 0)
      decreases |d| - i
    {
      var tag := DecodeVarint(d, i);
      if tag.Err? { return Err(tag.error); }
      var wireType := WireType(tag.value.0);
      i := tag.value.1;
      if wireType == 0 {
        var v := DecodeVarint(d, i);
        if v.Err? { return Err(v.error); }
        i := v.value.1;
      } else if wireType == 1 {
        i := Wrap64(i + 8);
      } else if wireType == 2 {
        var v := DecodeVarint(d, i);
        if v.Err? { return Err(v.error); }
        var length := ToInt64(v.value.0);
        if length < 0 { return Err(InvalidLength); }
        i := Wrap64(v.value.1 + length);
      } else if wireType == 3 {
        depth := depth + 1;
      } else if wireType == 4 {
        if depth == 0 { return Err(UnexpectedEndOfGroup); }
        depth := depth - 1;
      } else if wireType == 5 {
        i := Wrap64(i + 4);
      } else {
        return Err(IllegalWireType);
      }
      if i < 0 { return Err(InvalidLength); }
      if depth == 0 { return Ok(i); }
    }
    return Err(UnexpectedEOF);
  }

  /** Well-formed fields of every wire type, groups nested to any depth. */
  datatype Field =
    | VarintField(num: nat, value: nat)
    | Fixed64Field(num: nat, data: seq<byte>)
    | SpanField(num: nat, payload: seq<byte>)
    | GroupField(num: nat, fields: seq<Field>)
    | Fixed32Field(num: nat, data: seq<byte>)

  ghost predicate Legal(f: Field) {
    && f.num < TWO31
    && match f
       case VarintField(_, v) => v < TWO64
       case Fixed64Field(_, b) => |b| == 8
       case SpanField(_, b) => true
       case GroupField(_, fs) => forall g | g in fs :: Legal(g)
       case Fixed32Field(_, b) => |b| == 4
  }

  function EncodeField(f: Field): (e: seq<byte>)
    ensures |e| > 0
  {
    match f
    case VarintField(n, v) => EncodeVarint(8 * n) + EncodeVarint(v)
    case Fixed64Field(n, b) => EncodeVarint(8 * n + 1) + b
    case SpanField(n, b) => EncodeVarint(8 * n + 2) + EncodeSpan(b)
    case GroupField(n, fs) => EncodeVarint(8 * n + 3) + (EncodeAll(fs) + EncodeVarint(8 * n + 4))
    case Fixed32Field(n, b) => EncodeVarint(8 * n + 5) + b
  }

  function EncodeAll(fs: seq<Field>): seq<byte> {
    if fs == [] then [] else EncodeField(fs[0]) + EncodeAll(fs[1..])
  }

  /** The tag of a field, as the skip loop reads it. */
  lemma SkipTag(d: Bytes, i: nat, num: nat, wireType: nat, rest: seq<byte>)
    requires num < TWO31 && wireType < 8
    requires At(d, i, EncodeVarint(8 * num + wireType) + rest)
    ensures var j := i + |EncodeVarint(8 * num + wireType)|;
      && ReadVarint(d, i) == Ok((8 * num + wireType, j))
      && WireType(8 * num + wireType) == wireType
      && At(d, j, rest)
  {
    AtConcat(d, i, EncodeVarint(8 * num + wireType), rest);
    VarintInverse(d, i, 8 * num + wireType);
  }

  lemma SkipSpanStep(d: Bytes, i: nat, n: nat, b: seq<byte>, depth: nat)
    requires n < TWO31 && At(d, i, EncodeField(SpanField(n, b)))
    ensures SkipStep(d, i, depth) == Ok((i + |EncodeField(SpanField(n, b))|, depth))
  {
    hide ReadVarint;
    hide EncodeVarint;
    hide Wrap64;
    SkipTag(d, i, n, 2, EncodeSpan(b));
    var j := i + |EncodeVarint(8 * n + 2)|;
    AtConcat(d, j, EncodeVarint(|b|), b);
    VarintInverse(d, j, |b|);
  }

  lemma SkipPlainStep(d: Bytes, i: nat, f: Field, depth: nat)
    requires Legal(f) && !f.GroupField? && At(d, i, EncodeField(f))
    ensures SkipStep(d, i, depth) == Ok((i + |EncodeField(f)|, depth))
  {
    hide ReadVarint;
    hide Wrap64;
    hide EncodeVarint;
    match f
    case VarintField(n, v) =>
      SkipTag(d, i, n, 0, EncodeVarint(v));
      VarintInverse(d, i + |EncodeVarint(8 * n)|, v);
    case Fixed64Field(n, b) =>
      SkipTag(d, i, n, 1, b);
    case SpanField(n, b) =>
      SkipSpanStep(d, i, n, b, depth);
    case Fixed32Field(n, b) =>
      SkipTag(d, i, n, 5, b);
  }

  /** What skipping does after a whole field that ends at index next. */
  function AfterField(d: Bytes, next: nat, depth: nat): Result<nat, Error> {
    if depth == 0 then Ok(next) else SkipFrom(d, next, depth)
  }

  lemma SkipUnfold(d: Bytes, i: nat, depth: nat, next: nat, depth': nat)
    requires i < |d| && SkipStep(d, i, depth) == Ok((next, depth'))
    ensures SkipFrom(d, i, depth) == AfterField(d, next, depth')
  {
  }

  lemma SkipOpen(d: Bytes, i: nat, n: nat, rest: seq<byte>, depth: nat)
    requires n < TWO31 && At(d, i, EncodeVarint(8 * n + 3) + rest)
    ensures SkipFrom(d, i, depth) == SkipFrom(d, i + |EncodeVarint(8 * n + 3)|, depth + 1)
    ensures At(d, i + |EncodeVarint(8 * n + 3)|, rest)
  {
    SkipTag(d, i, n, 3, rest);
    SkipUnfold(d, i, depth, i + |EncodeVarint(8 * n + 3)|, depth + 1);
  }

  lemma SkipClose(d: Bytes, i: nat, n: nat, depth: nat)
    requires n < TWO31 && At(d, i, EncodeVarint(8 * n + 4))
    ensures SkipFrom(d, i, depth + 1) == AfterField(d, i + |EncodeVarint(8 * n + 4)|, depth)
  {
    assert EncodeVarint(8 * n + 4) + [] == EncodeVarint(8 * n + 4);
    SkipTag(d, i, n, 4, []);
    SkipUnfold(d, i, depth + 1, i + |EncodeVarint(8 * n + 4)|, depth);
  }

  lemma SkipsGroup(d: Bytes, i: nat, n: nat, body: seq<byte>, depth: nat)
    requires n < TWO31
    requires At(d, i, EncodeVarint(8 * n + 3) + (body + EncodeVarint(8 * n + 4)))
    requires var j := i + |EncodeVarint(8 * n + 3)|;
      SkipFrom(d, j, depth + 1) == SkipFrom(d, j + |body|, depth + 1)
    ensures var e := EncodeVarint(8 * n + 3) + (body + EncodeVarint(8 * n + 4));
      SkipFrom(d, i, depth) == AfterField(d, i + |e|, depth)
  {
    hide SkipFrom;
    hide EncodeVarint;
    var open, close := EncodeVarint(8 * n + 3), EncodeVarint(8 * n + 4);
    SkipOpen(d, i, n, body + close, depth);
    AtConcat(d, i + |open|, body, close);
    SkipClose(d, i + |open| + |body|, n, depth);
  }

  /** Skipping passes over exactly one well-formed field, at any group depth. */
  lemma {:induction false} SkipsField(d: Bytes, i: nat, f: Field, depth: nat)
    requires Legal(f) && At(d, i, EncodeField(f))
    ensures SkipFrom(d, i, depth) == AfterField(d, i + |EncodeField(f)|, depth)
    decreases f, 0
  {
    hide SkipFrom;
    hide EncodeVarint;
    if f.GroupField? {
      var body := EncodeAll(f.fields);
      var open, close := EncodeVarint(8 * f.num + 3), EncodeVarint(8 * f.num + 4);
      assert EncodeField(f) == open + (body + close);
      AtConcat(d, i, open, body + close);
      AtConcat(d, i + |open|, body, close);
      SkipsAll(d, i + |open|, f.fields, depth + 1);
      SkipsGroup(d, i, f.num, body, depth);
    } else {
      SkipPlainStep(d, i, f, depth);
      SkipUnfold(d, i, depth, i + |EncodeField(f)|, depth);
    }
  }

  lemma {:induction false} SkipsAll(d: Bytes, i: nat, fs: seq<Field>, depth: nat)
    requires depth > 0 && At(d, i, EncodeAll(fs))
    requires forall g | g in fs :: Legal(g)
    ensures SkipFrom(d, i, depth) == SkipFrom(d, i + |EncodeAll(fs)|, depth)
    decreases fs, 1
  {
    hide SkipFrom;
    hide Legal;
    if fs != [] {
      var first, rest := EncodeField(fs[0]), EncodeAll(fs[1..]);
      assert EncodeAll(fs) == first + rest;
      AtConcat(d, i, first, rest);
      SkipsField(d, i, fs[0], depth);
      SkipsAll(d, i + |first|, fs[1..], depth);
    }
  }
}
