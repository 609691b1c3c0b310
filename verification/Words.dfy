/**
64-bit words as the decoders build them: groups of seven bits are put in with a
shift and a bitwise or, lowest group first. This module gives the number that a
word stands for and shows what the or adds to it.
*/
module Words {

  function Bit(x: bv64, mask: bv64): (b: nat)
    ensures b <= 1
  {
    if x & mask == 0 then 0 else 1
  }

  /** The number in the lowest seven bits. */
  function Low7(x: bv64): (v: nat)
    ensures v < 128
  {
    Bit(x, 1) + 2 * Bit(x, 2) + 4 * Bit(x, 4) + 8 * Bit(x, 8) + 16 * Bit(x, 16) + 32 * Bit(x, 32) + 64 * Bit(x, 64)
  }

  /** The number that a word stands for. */
  function Val(x: bv64): nat {
    if x == 0 then 0 else Low7(x) + 128 * Val(x >> 7)
  }

  // ----- Groups of seven bits -----

  function Flag(on: bool, mask: bv64): bv64 {
    if on then mask else 0
  }

  function Flags7(b0: bool, b1: bool, b2: bool, b3: bool, b4: bool, b5: bool, b6: bool): bv64 {
    Flag(b0, 1) | Flag(b1, 2) | Flag(b2, 4) | Flag(b3, 8) | Flag(b4, 16) | Flag(b5, 32) | Flag(b6, 64)
  }

  function Half(n: nat): nat {
    n / 2
  }

  predicate Odd(n: nat) {
    n % 2 == 1
  }

  /** A group of seven bits as a word. */
  function Word7(c: nat): bv64 {
    var h1 := Half(c);
    var h2 := Half(h1);
    var h3 := Half(h2);
    var h4 := Half(h3);
    var h5 := Half(h4);
    Flags7(Odd(c), Odd(h1), Odd(h2), Odd(h3), Odd(h4), Odd(h5), Odd(Half(h5)))
  }

  function One(b: bool): nat {
    if b then 1 else 0
  }

  lemma FlagBits(b0: bool, b1: bool, b2: bool, b3: bool, b4: bool, b5: bool, b6: bool)
    ensures var x := Flags7(b0, b1, b2, b3, b4, b5, b6);
      && Bit(x, 1) == One(b0) && Bit(x, 2) == One(b1) && Bit(x, 4) == One(b2) && Bit(x, 8) == One(b3)
      && Bit(x, 16) == One(b4) && Bit(x, 32) == One(b5) && Bit(x, 64) == One(b6)
    ensures Flags7(b0, b1, b2, b3, b4, b5, b6) < 128
  {
  }

  lemma BinaryDigit(n: nat)
    ensures n == One(Odd(n)) + 2 * Half(n)
    ensures n < 2 ==> n == One(Odd(n))
  {
  }

  lemma SmallVal(x: bv64)
    requires x < 128
    ensures Val(x) == Low7(x)
  {
    assert x >> 7 == 0;
  }

  lemma FlagsValue(b0: bool, b1: bool, b2: bool, b3: bool, b4: bool, b5: bool, b6: bool)
    ensures Flags7(b0, b1, b2, b3, b4, b5, b6) < 128
    ensures Val(Flags7(b0, b1, b2, b3, b4, b5, b6))
         == One(b0) + 2 * One(b1) + 4 * One(b2) + 8 * One(b3) + 16 * One(b4) + 32 * One(b5) + 64 * One(b6)
  {
    hide Flags7;
    hide Val;
    hide Bit;
    FlagBits(b0, b1, b2, b3, b4, b5, b6);
    SmallVal(Flags7(b0, b1, b2, b3, b4, b5, b6));
  }

  lemma Word7Value(c: nat)
    requires c < 128
    ensures Word7(c) < 128 && Val(Word7(c)) == c
  {
    hide Flags7;
    hide Val;
    hide One;
    hide Half;
    hide Odd;
    var h1 := Half(c);
    var h2 := Half(h1);
    var h3 := Half(h2);
    var h4 := Half(h3);
    var h5 := Half(h4);
    FlagsValue(Odd(c), Odd(h1), Odd(h2), Odd(h3), Odd(h4), Odd(h5), Odd(Half(h5)));
    BinaryDigit(c);
    BinaryDigit(h1);
    BinaryDigit(h2);
    BinaryDigit(h3);
    BinaryDigit(h4);
    BinaryDigit(h5);
    BinaryDigit(Half(h5));
  }

  // ----- Putting a group in -----

  /** The shift of the k-th group. */
  function ShiftOf(k: nat): bv64 {
    if k == 0 then 0 else ShiftOf(k - 1) + 7
  }

  lemma ShiftTable(k: nat)
    requires k <= 10
    ensures k <= 8 ==> ShiftOf(k) <= 56
    ensures k == 9 ==> ShiftOf(k) == 63
    ensures k == 10 ==> ShiftOf(k) == 70
    ensures k > 0 ==> ShiftOf(k) >= 7
  {
  }

  /** v times the weight of the k-th group. */
  function Scale(k: nat, v: nat): nat {
    if k == 0 then v else 128 * Scale(k - 1, v)
  }

  /** wire | chunk << shift */
  function Put(acc: bv64, chunk: bv64, shift: bv64): bv64
    requires shift < 64
  {
    acc | (chunk << shift)
  }

  /** Nothing has been put in from the shift on. */
  predicate Room(acc: bv64, shift: bv64)
    requires shift < 64
  {
    acc >> shift == 0
  }

  /** A group that fits: of the last one, only the lowest bit does. */
  predicate Fits(chunk: bv64, shift: bv64) {
    (shift <= 56 && chunk < 128) || (shift == 63 && chunk < 2)
  }

  function Drop7(x: bv64): bv64 {
    x >> 7
  }

  lemma BitKept(acc: bv64, chunk: bv64, s: bv64, mask: bv64)
    requires 7 <= s < 64 && mask < 128
    ensures Bit(Put(acc, chunk, s), mask) == Bit(acc, mask)
  {
    assert (chunk << s) & mask == 0;
    assert (acc | (chunk << s)) & mask == acc & mask;
  }

  lemma LowBits(acc: bv64, chunk: bv64, s: bv64)
    requires 7 <= s < 64
    ensures Low7(Put(acc, chunk, s)) == Low7(acc)
  {
    hide Put;
    hide Bit;
    BitKept(acc, chunk, s, 1);
    BitKept(acc, chunk, s, 2);
    BitKept(acc, chunk, s, 4);
    BitKept(acc, chunk, s, 8);
    BitKept(acc, chunk, s, 16);
    BitKept(acc, chunk, s, 32);
    BitKept(acc, chunk, s, 64);
  }

  lemma HighBits(acc: bv64, chunk: bv64, s: bv64)
    requires 7 <= s < 64 && Fits(chunk, s)
    ensures Drop7(Put(acc, chunk, s)) == Put(Drop7(acc), chunk, s - 7)
  {
    DropChunk(chunk, s);
    DropOr(acc, chunk << s);
  }

  lemma DropOr(a: bv64, b: bv64)
    ensures (a | b) >> 7 == (a >> 7) | (b >> 7)
  {
  }

  lemma DropChunk(chunk: bv64, s: bv64)
    requires 7 <= s < 64 && Fits(chunk, s)
    ensures (chunk << s) >> 7 == chunk << (s - 7)
  {
    if s == 63 {
      assert chunk == 0 || chunk == 1;
    } else {
      DropGroup(chunk, s - 7);
    }
  }

  lemma DropGroup(chunk: bv64, s: bv64)
    requires s <= 49 && chunk < 128
    ensures (chunk << (s + 7)) >> 7 == chunk << s
  {
    ShiftMore(chunk, s);
    ShiftBack(chunk << s);
  }

  lemma ShiftMore(chunk: bv64, s: bv64)
    requires s <= 49 && chunk < 128
    ensures chunk << (s + 7) == (chunk << s) << 7 && (chunk << s) >> 57 == 0
  {
  }

  lemma ShiftBack(x: bv64)
    requires x >> 57 == 0
    ensures (x << 7) >> 7 == x
  {
  }

  lemma RoomBelow(acc: bv64, s: bv64)
    requires 7 <= s < 64 && Room(acc, s)
    ensures Room(Drop7(acc), s - 7)
  {
  }

  lemma FirstGroup(acc: bv64, chunk: bv64)
    requires Room(acc, 0)
    ensures acc == 0 && Put(acc, chunk, 0) == chunk && Val(acc) == 0
  {
  }

  lemma Unfold(x: bv64)
    ensures Val(x) == Low7(x) + 128 * Val(Drop7(x))
  {
    if x == 0 {
      assert x >> 7 == 0;
    }
  }

  lemma FitsBelow(chunk: bv64, s: bv64)
    requires 7 <= s && Fits(chunk, s)
    ensures Fits(chunk, s - 7)
  {
  }

  lemma OneShiftLess(k: nat)
    requires 0 < k <= 9
    ensures 7 <= ShiftOf(k) < 64 && ShiftOf(k) - 7 == ShiftOf(k - 1) && ShiftOf(k - 1) < 64
  {
    ShiftTable(k);
    ShiftTable(k - 1);
  }

  /** Putting a group into a word that has room for it adds its weighted value. */
  lemma {:induction false} OrAdds(acc: bv64, chunk: bv64, s: bv64, k: nat)
    requires k <= 9 && s == ShiftOf(k) && s < 64 && Room(acc, s) && Fits(chunk, s)
    ensures Val(Put(acc, chunk, s)) == Val(acc) + Scale(k, Val(chunk))
    decreases k
  {
    hide Low7;
    hide Val;
    hide Put;
    hide Room;
    hide Fits;
    hide Drop7;
    if k == 0 {
      FirstGroup(acc, chunk);
    } else {
      OneShiftLess(k);
      RoomBelow(acc, s);
      FitsBelow(chunk, s);
      LowBits(acc, chunk, s);
      HighBits(acc, chunk, s);
      Unfold(acc);
      Unfold(Put(acc, chunk, s));
      OrAdds(Drop7(acc), chunk, s - 7, k - 1);
    }
  }

  /** There is room for the next group above the one that was put in. */
  lemma RoomAbove(acc: bv64, chunk: bv64, shift: bv64)
    requires shift < 57 && Room(acc, shift) && chunk < 128
    ensures Room(Put(acc, chunk, shift), shift + 7)
  {
    assert acc >> (shift + 7) == 0;
    assert (chunk << shift) >> (shift + 7) == 0;
  }

  /** A word with room from the k-th group on is less than the weight of that group. */
  lemma {:induction false} ValBound(acc: bv64, s: bv64, k: nat)
    requires k <= 9 && s == ShiftOf(k) && s < 64 && Room(acc, s)
    ensures Val(acc) < Scale(k, 1)
    decreases k
  {
    hide Low7;
    hide Val;
    hide Room;
    hide Drop7;
    if k == 0 {
      FirstGroup(acc, 0);
    } else {
      OneShiftLess(k);
      RoomBelow(acc, s);
      ValBound(Drop7(acc), s - 7, k - 1);
      Unfold(acc);
    }
  }

  /** Of the last group only the lowest bit stays in the word. */
  lemma LastGroup(acc: bv64, chunk: bv64)
    requires chunk < 128
    ensures Put(acc, chunk, 63) == Put(acc, chunk & 1, 63)
    ensures Fits(chunk & 1, 63) && Val(chunk & 1) == Val(chunk) % 2
  {
    var low := chunk & 1;
    assert chunk << 63 == low << 63;
    assert low == 0 || low == 1;
    OneBit(low);
    assert Bit(low, 1) == Bit(chunk, 1);
    SmallVal(low);
    SmallVal(chunk);
  }

  lemma OneBit(low: bv64)
    requires low < 2
    ensures Low7(low) == Bit(low, 1)
  {
  }
}
