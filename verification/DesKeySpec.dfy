/** The key schedule as the standard lays it out (FIPS 46-3, Appendix 1), and the tables both engines use for it. */
module DesKeySpec {
  import opened Bits

  /** An eight-byte block or key. */
  type Block = s: seq<Byte> | |s| == 8 witness [0, 0, 0, 0, 0, 0, 0, 0]

  /** A round key as six bytes. */
  type RoundKey = s: seq<Byte> | |s| == 6 witness [0, 0, 0, 0, 0, 0]

  /** Entry `j & 3` of four. */
  function Pick(j: bv8, a0: bv8, a1: bv8, a2: bv8, a3: bv8): bv8 {
    if j & 2 == 0 then (if j & 1 == 0 then a0 else a1) else (if j & 1 == 0 then a2 else a3)
  }

  // ----- tables of the bit-level engine (src/leo_standard_des_crypto.c:193-216)

  /** key_rnd_shift. */
  function RoundShift(i: nat): (s: bv8)
    requires i < 16
    ensures s == 1 || s == 2
  {
    if i == 0 || i == 1 || i == 8 || i == 15 then 1 else 2
  }

  /** key_perm_c. */
  function PermC(i: bv8): (r: bv8)
    ensures r < 64
  {
    if i & 16 == 0 then
      if i & 8 == 0 then
        if i & 4 == 0 then
          Pick(i, 56, 48, 40, 32)
        else
          Pick(i, 24, 16, 8, 0)
      else
        if i & 4 == 0 then
          Pick(i, 57, 49, 41, 33)
        else
          Pick(i, 25, 17, 9, 1)
    else
      if i & 8 == 0 then
        if i & 4 == 0 then
          Pick(i, 58, 50, 42, 34)
        else
          Pick(i, 26, 18, 10, 2)
      else
        Pick(i, 59, 51, 43, 35)
  }

  /** key_perm_d. */
  function PermD(i: bv8): (r: bv8)
    ensures r < 64
  {
    if i & 16 == 0 then
      if i & 8 == 0 then
        if i & 4 == 0 then
          Pick(i, 62, 54, 46, 38)
        else
          Pick(i, 30, 22, 14, 6)
      else
        if i & 4 == 0 then
          Pick(i, 61, 53, 45, 37)
        else
          Pick(i, 29, 21, 13, 5)
    else
      if i & 8 == 0 then
        if i & 4 == 0 then
          Pick(i, 60, 52, 44, 36)
        else
          Pick(i, 28, 20, 12, 4)
      else
        Pick(i, 27, 19, 11, 3)
  }

  /** key_compression. */
  function Compress(j: bv8): (r: bv8)
    requires j < 48
    ensures r < 56 && (j < 24 ==> r < 28) && (j >= 24 ==> 28 <= r)
  {
    if j & 32 == 0 then
      if j & 16 == 0 then
        if j & 8 == 0 then
          if j & 4 == 0 then
            Pick(j, 13, 16, 10, 23)
          else
            Pick(j, 0, 4, 2, 27)
        else
          if j & 4 == 0 then
            Pick(j, 14, 5, 20, 9)
          else
            Pick(j, 22, 18, 11, 3)
      else
        if j & 8 == 0 then
          if j & 4 == 0 then
            Pick(j, 25, 7, 15, 6)
          else
            Pick(j, 26, 19, 12, 1)
        else
          if j & 4 == 0 then
            Pick(j, 40, 51, 30, 36)
          else
            Pick(j, 46, 54, 29, 39)
    else
      if j & 8 == 0 then
          if j & 4 == 0 then
            Pick(j, 50, 44, 32, 47)
          else
            Pick(j, 43, 48, 38, 55)
        else
          if j & 4 == 0 then
            Pick(j, 33, 52, 45, 41)
          else
            Pick(j, 49, 35, 28, 31)
  }

  // ----- tables of the table-driven engine (src/leo_des_crypto.c:28-55)

  /** pc1, with C = 28 and D = 0. */
  function Pc1(n: bv8): (r: bv8)
    requires n < 56
    ensures r < 56
  {
    if n & 32 == 0 then
      if n & 16 == 0 then
        if n & 8 == 0 then
          if n & 4 == 0 then
            Pick(n, 48, 40, 32, 0)
          else
            Pick(n, 4, 12, 20, 49)
        else
          if n & 4 == 0 then
            Pick(n, 41, 33, 1, 5)
          else
            Pick(n, 13, 21, 50, 42)
      else
        if n & 8 == 0 then
          if n & 4 == 0 then
            Pick(n, 34, 2, 6, 14)
          else
            Pick(n, 22, 51, 43, 35)
        else
          if n & 4 == 0 then
            Pick(n, 3, 7, 15, 23)
          else
            Pick(n, 52, 44, 36, 28)
    else
      if n & 16 == 0 then
        if n & 8 == 0 then
          if n & 4 == 0 then
            Pick(n, 8, 16, 24, 53)
          else
            Pick(n, 45, 37, 29, 9)
        else
          if n & 4 == 0 then
            Pick(n, 17, 25, 54, 46)
          else
            Pick(n, 38, 30, 10, 18)
      else
        if n & 4 == 0 then
            Pick(n, 26, 55, 47, 39)
          else
            Pick(n, 31, 11, 19, 27)
  }

  /** pc2_c. */
  function Pc2C(n: bv8): (r: bv8)
    ensures r < 28
  {
    if n & 16 == 0 then
      if n & 8 == 0 then
        if n & 4 == 0 then
          Pick(n, 14, 11, 17, 4)
        else
          Pick(n, 27, 23, 25, 0)
      else
        if n & 4 == 0 then
          Pick(n, 13, 22, 7, 18)
        else
          Pick(n, 5, 9, 16, 24)
    else
      if n & 4 == 0 then
          Pick(n, 2, 20, 12, 21)
        else
          Pick(n, 1, 8, 15, 26)
  }

  /** pc2_d. */
  function Pc2D(n: bv8): (r: bv8)
    ensures r < 28
  {
    if n & 16 == 0 then
      if n & 8 == 0 then
        if n & 4 == 0 then
          Pick(n, 15, 4, 25, 19)
        else
          Pick(n, 9, 1, 26, 16)
      else
        if n & 4 == 0 then
          Pick(n, 5, 11, 23, 8)
        else
          Pick(n, 12, 7, 17, 0)
    else
      if n & 4 == 0 then
          Pick(n, 22, 3, 10, 14)
        else
          Pick(n, 6, 20, 27, 24)
  }

  // ----- the schedule

  function ByteAt(key: Block, k: bv8): Byte {
    if k == 0 then key[0] else if k == 1 then key[1] else if k == 2 then key[2] else if k == 3 then key[3]
    else if k == 4 then key[4] else if k == 5 then key[5] else if k == 6 then key[6] else key[7]
  }

  /** Bit `b` of the key, counted from the first. */
  predicate KeyBit(key: Block, b: bv8)
    requires b < 64
  {
    ByteBit(ByteAt(key, b >> 3), b & 7)
  }

  /** How far the halves have been turned after `n` rounds. */
  function TotalShift(n: nat): (t: bv8)
    requires n <= 16
    ensures t <= 28
  {
    match n
    case 0 => 0 case 1 => 1 case 2 => 2 case 3 => 4 case 4 => 6 case 5 => 8 case 6 => 10 case 7 => 12 case 8 => 14
    case 9 => 15 case 10 => 17 case 11 => 19 case 12 => 21 case 13 => 23 case 14 => 25 case 15 => 27 case _ => 28
  }

  lemma TotalShiftStep(n: nat)
    requires n < 16
    ensures TotalShift(n + 1) == TotalShift(n) + RoundShift(n)
  {}

  /** Position `q` of the two halves together, after `n` turns: which key bit it holds. */
  predicate HalvesBit(key: Block, n: nat, q: bv8)
    requires n <= 16 && q < 56
  {
    if q < 28 then KeyBit(key, PermC(Turned(q, TotalShift(n)))) else KeyBit(key, PermD(Turned(q - 28, TotalShift(n))))
  }

  /** Bit `j` of the key for round `n`, counted from 0. */
  predicate RoundBit(key: Block, n: nat, j: bv8)
    requires n < 16 && j < 48
  {
    HalvesBit(key, n + 1, Compress(j))
  }

  /** A choice of 48 bits. */
  type Bits48 = bv8 -> bool

  function ByteOfBits(a: bool, b: bool, c: bool, d: bool, e: bool, f: bool, g: bool, h: bool): Byte {
    (if a then 0x80 else 0) | (if b then 0x40 else 0) | (if c then 0x20 else 0) | (if d then 0x10 else 0) |
    (if e then 8 else 0) | (if f then 4 else 0) | (if g then 2 else 0) | (if h then 1 else 0)
  }

  function Byte8(f: Bits48, p: bv8): Byte
    requires p <= 40
  {
    ByteOfBits(f(p), f(p + 1), f(p + 2), f(p + 3), f(p + 4), f(p + 5), f(p + 6), f(p + 7))
  }

  function BytesOf(f: Bits48): RoundKey {
    [Byte8(f, 0), Byte8(f, 8), Byte8(f, 16), Byte8(f, 24), Byte8(f, 32), Byte8(f, 40)]
  }

  function RoundBits(key: Block, n: nat): Bits48
    requires n < 16
  {
    j => j < 48 && RoundBit(key, n, j)
  }

  /** The key for round `n`. */
  function KeyOfRound(key: Block, n: nat): RoundKey
    requires n < 16
  {
    BytesOf(RoundBits(key, n))
  }

  lemma SameBits(f: Bits48, g: Bits48)
    requires forall j: bv8 :: j < 48 ==> f(j) == g(j)
    ensures BytesOf(f) == BytesOf(g)
  {
    SameBits8(f, g, 0);
    SameBits8(f, g, 8);
    SameBits8(f, g, 16);
    SameBits8(f, g, 24);
    SameBits8(f, g, 32);
    SameBits8(f, g, 40);
  }

  lemma SameBits8(f: Bits48, g: Bits48, p: bv8)
    requires p <= 40 && forall j: bv8 :: j < 48 ==> f(j) == g(j)
    ensures Byte8(f, p) == Byte8(g, p)
  {}

  /** A byte is known by its bits. */
  lemma ByteFrom(x: Byte, f: Bits48, p: bv8)
    requires p <= 40
    requires ByteBit(x, 0) == f(p) && ByteBit(x, 1) == f(p + 1) && ByteBit(x, 2) == f(p + 2) && ByteBit(x, 3) == f(p + 3)
    requires ByteBit(x, 4) == f(p + 4) && ByteBit(x, 5) == f(p + 5) && ByteBit(x, 6) == f(p + 6) && ByteBit(x, 7) == f(p + 7)
    ensures x == Byte8(f, p)
  {}

  // ----- a row that is filled bit by bit

  /** `j / 8`, as an index. */
  function Div8(j: bv8): (k: nat)
    requires j < 48
    ensures k < 6
  {
    if j < 8 then 0 else if j < 16 then 1 else if j < 24 then 2 else if j < 32 then 3 else if j < 40 then 4 else 5
  }

  /** The first `j` bits are in place, the rest are still zero. */
  ghost predicate RowFilled(row: RoundKey, f: Bits48, j: bv8) {
    forall p: bv8 :: p < 48 ==> ByteBit(row[Div8(p)], p & 7) == (p < j && f(p))
  }

  function OrBit(x: Byte, b: bool, j: bv8): Byte
    requires j < 8
  {
    x | ((if b then 1 else 0) << j)
  }

  lemma RowStep(row: RoundKey, f: Bits48, j: bv8)
    requires j < 48 && RowFilled(row, f, j)
    ensures RowFilled(row[Div8(j) := OrBit(row[Div8(j)], f(j), 7 - (j & 7))], f, j + 1)
  {
    var row' := row[Div8(j) := OrBit(row[Div8(j)], f(j), 7 - (j & 7))];
    forall p: bv8 | p < 48
      ensures ByteBit(row'[Div8(p)], p & 7) == (p < j + 1 && f(p))
    {
      assert ByteBit(row[Div8(p)], p & 7) == (p < j && f(p));
      if Div8(p) == Div8(j) {
        StepAt(row[Div8(p)], f(j), f(p), j, p);
      } else {
        assert p != j;
      }
    }
  }

  lemma StepAt(x: Byte, fj: bool, fp: bool, j: bv8, p: bv8)
    requires p < 48 && j < 48 && Div8(p) == Div8(j) && ByteBit(x, p & 7) == (p < j && fp) && (p == j ==> fp == fj)
    ensures ByteBit(OrBit(x, fj, 7 - (j & 7)), p & 7) == (p < j + 1 && fp)
  {
    SetByteBit(x, fj, 7 - (j & 7), p & 7);
    SamePlace(p, j);
    assert p < j + 1 <==> p < j || p == j;
  }

  lemma SamePlace(p: bv8, j: bv8)
    requires p < 48 && j < 48 && Div8(p) == Div8(j)
    ensures p & 7 == 7 - (7 - (j & 7)) <==> p == j
  {}

  lemma RowDone(row: RoundKey, f: Bits48)
    requires RowFilled(row, f, 48)
    ensures row == BytesOf(f)
  {
    RowByte(row, f, 0);
    RowByte(row, f, 8);
    RowByte(row, f, 16);
    RowByte(row, f, 24);
    RowByte(row, f, 32);
    RowByte(row, f, 40);
  }

  lemma RowByte(row: RoundKey, f: Bits48, p: bv8)
    requires RowFilled(row, f, 48) && (p == 0 || p == 8 || p == 16 || p == 24 || p == 32 || p == 40)
    ensures row[Div8(p)] == Byte8(f, p)
  {
    RowBit(row, f, p, 0);
    RowBit(row, f, p, 1);
    RowBit(row, f, p, 2);
    RowBit(row, f, p, 3);
    RowBit(row, f, p, 4);
    RowBit(row, f, p, 5);
    RowBit(row, f, p, 6);
    RowBit(row, f, p, 7);
    ByteFrom(row[Div8(p)], f, p);
  }

  lemma RowBit(row: RoundKey, f: Bits48, p: bv8, i: bv8)
    requires RowFilled(row, f, 48) && p & 7 == 0 && p < 48 && i < 8
    ensures ByteBit(row[Div8(p)], i) == f(p + i)
  {
    var q := p + i;
    assert q < 48 && Div8(q) == Div8(p) && q & 7 == i;
    assert ByteBit(row[Div8(q)], q & 7) == f(q);
  }
}
