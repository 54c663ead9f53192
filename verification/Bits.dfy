/** Single bits of words and bytes, counted from the most significant one. */
module Bits {

  type Byte = bv8

  predicate BitAt(x: bv32, i: bv8)
    requires i < 32
  {
    (x << i) & 0x80000000 != 0
  }

  predicate ByteBit(x: bv8, i: bv8)
    requires i < 8
  {
    (x << i) & 0x80 != 0
  }

  function XorByte(x: Byte, y: Byte): Byte {
    x ^ y
  }

  lemma XorByteTwice(x: Byte, y: Byte)
    ensures XorByte(XorByte(x, y), y) == x
  {}

  function Xor(x: bv32, y: bv32): bv32 {
    x ^ y
  }

  lemma XorAssoc(x: bv32, y: bv32, z: bv32)
    ensures Xor(Xor(x, y), z) == Xor(x, Xor(y, z))
  {}

  lemma XorSymmetric(x: bv32, y: bv32)
    ensures Xor(x, y) == Xor(y, x)
  {}

  function Flag(b: bool): bv32 {
    if b then 1 else 0
  }

  /** Or-ing one bit into place `j`, counted from the other end. */
  lemma SetBit(x: bv32, f: bool, j: bv8, i: bv8)
    requires i < 32 && j < 32
    ensures BitAt(x | (Flag(f) << j), i) <==> BitAt(x, i) || (i == 31 - j && f)
  {}

  lemma GetBit(x: bv32, b: bv8)
    requires b < 32
    ensures (x >> (31 - b)) & 1 == Flag(BitAt(x, b))
  {}

  lemma SetByteBit(x: bv8, f: bool, j: bv8, i: bv8)
    requires i < 8 && j < 8
    ensures ByteBit(x | ((if f then 1 else 0) << j), i) <==> ByteBit(x, i) || (i == 7 - j && f)
  {}

  lemma GetByteBit(x: bv8, b: bv8)
    requires b < 8
    ensures (x >> (7 - b)) & 1 == if ByteBit(x, b) then 1 else 0
  {}

  lemma ZeroBits(i: bv8)
    ensures i < 32 ==> !BitAt(0, i)
    ensures i < 8 ==> !ByteBit(0, i)
  {}

  // ----- turning a 28-bit half

  /** Position `i` of a half after it was turned left by `t` places. */
  function Turned(i: bv8, t: bv8): bv8
    requires i < 28 && t <= 28
    ensures Turned(i, t) < 28
  {
    if i + t < 28 then i + t else i + t - 28
  }

  lemma TurnTurned(i: bv8, s: bv8, t: bv8)
    requires i < 28 && s <= 2 && t <= 28 && t + s <= 28
    ensures Turned(Turned(i, s), t) == Turned(i, t + s)
  {}

  /** The half in the top 28 bits, as the bit-level engine keeps it. */
  function TurnHigh(x: bv32, s: bv8): bv32
    requires s == 1 || s == 2
  {
    if s == 1 then ((x << 1) | (x >> 27)) & 0xfffffff0 else ((x << 2) | (x >> 26)) & 0xfffffff0
  }

  lemma ShiftBySmall(x: bv32, s: bv8)
    ensures s == 1 ==> (x << s) | (x >> (28 - s)) == (x << 1) | (x >> 27)
    ensures s == 2 ==> (x << s) | (x >> (28 - s)) == (x << 2) | (x >> 26)
  {}

  lemma HighByOne(x: bv32, i: bv8)
    requires i < 28 && x & 0xf == 0
    ensures var y := ((x << 1) | (x >> 27)) & 0xfffffff0;
      y & 0xf == 0 && BitAt(y, i) == if i < 27 then BitAt(x, i + 1) else BitAt(x, 0)
  {}

  lemma HighByTwo(x: bv32, i: bv8)
    requires i < 28 && x & 0xf == 0
    ensures var y := ((x << 2) | (x >> 26)) & 0xfffffff0;
      y & 0xf == 0 && BitAt(y, i) == if i < 26 then BitAt(x, i + 2) else BitAt(x, i - 26)
  {}

  lemma TurnedSmall(i: bv8, s: bv8)
    requires (s == 1 || s == 2) && i < 28
    ensures Turned(i, s) == if s == 1 then (if i < 27 then i + 1 else 0) else (if i < 26 then i + 2 else i - 26)
  {}

  lemma TurnHighBit(x: bv32, s: bv8, i: bv8)
    requires (s == 1 || s == 2) && i < 28 && x & 0xf == 0
    ensures TurnHigh(x, s) & 0xf == 0 && BitAt(TurnHigh(x, s), i) == BitAt(x, Turned(i, s))
  {
    TurnedSmall(i, s);
    if s == 1 {
      HighByOne(x, i);
    } else {
      HighByTwo(x, i);
    }
  }

  /** The half in the low 28 bits, as the table-driven engine keeps it. */
  function TurnLow(x: bv32, s: bv8): bv32
    requires s == 1 || s == 2
  {
    if s == 1 then ((x << 1) | (x >> 27)) & 0x0fffffff else ((x << 2) | (x >> 26)) & 0x0fffffff
  }

  lemma LowByOne(x: bv32)
    requires x & 0xf0000000 == 0
    ensures var y := ((x << 1) | (x >> 27)) & 0x0fffffff;
      y & 0xf0000000 == 0 && y << 4 == (((x << 4) << 1) | ((x << 4) >> 27)) & 0xfffffff0
  {}

  lemma LowByTwo(x: bv32)
    requires x & 0xf0000000 == 0
    ensures var y := ((x << 2) | (x >> 26)) & 0x0fffffff;
      y & 0xf0000000 == 0 && y << 4 == (((x << 4) << 2) | ((x << 4) >> 26)) & 0xfffffff0
  {}

  /** The two ways of keeping a half stay four places apart. */
  lemma TurnLowHigh(x: bv32, s: bv8)
    requires (s == 1 || s == 2) && x & 0xf0000000 == 0
    ensures TurnLow(x, s) & 0xf0000000 == 0 && TurnLow(x, s) << 4 == TurnHigh(x << 4, s)
  {
    if s == 1 {
      LowByOne(x);
    } else {
      LowByTwo(x);
    }
  }
}
