/** The bit-level engine as functions (src/leo_standard_des_crypto.c). */
module StandardDesSpec {
  import opened DesTables
  import opened Bits
  import opened DesKeySpec

  // ----- the bit macros (lines 18-24); BITNUM comes with its byte already picked

  function Bit(x: Byte, n: bv8, c: bv8): bv32
    requires n < 8 && c < 32
  {
    (((x >> n) & 0x01) as bv32) << c
  }

  function BitR(x: bv32, b: bv8, c: bv8): Byte
    requires b < 32 && c < 8
  {
    (((x >> (31 - b)) & 0x00000001) as Byte) << c
  }

  function BitL(x: bv32, b: bv8, c: bv8): bv32
    requires b < 32 && c < 32
  {
    ((x << b) & 0x80000000) >> c
  }

  function SboxBit(a: Byte): Byte {
    (a & 0x20) | ((a & 0x1f) >> 1) | ((a & 0x01) << 4)
  }

  // ----- initial permutation and its inverse (lines 76-130)

  function IpHi(s: Block): bv32 {
    Bit(s[7], 6, 31) | Bit(s[6], 6, 30) | Bit(s[5], 6, 29) | Bit(s[4], 6, 28) |
    Bit(s[3], 6, 27) | Bit(s[2], 6, 26) | Bit(s[1], 6, 25) | Bit(s[0], 6, 24) |
    Bit(s[7], 4, 23) | Bit(s[6], 4, 22) | Bit(s[5], 4, 21) | Bit(s[4], 4, 20) |
    Bit(s[3], 4, 19) | Bit(s[2], 4, 18) | Bit(s[1], 4, 17) | Bit(s[0], 4, 16) |
    Bit(s[7], 2, 15) | Bit(s[6], 2, 14) | Bit(s[5], 2, 13) | Bit(s[4], 2, 12) |
    Bit(s[3], 2, 11) | Bit(s[2], 2, 10) | Bit(s[1], 2, 9) | Bit(s[0], 2, 8) |
    Bit(s[7], 0, 7) | Bit(s[6], 0, 6) | Bit(s[5], 0, 5) | Bit(s[4], 0, 4) |
    Bit(s[3], 0, 3) | Bit(s[2], 0, 2) | Bit(s[1], 0, 1) | Bit(s[0], 0, 0)
  }

  function IpLo(s: Block): bv32 {
    Bit(s[7], 7, 31) | Bit(s[6], 7, 30) | Bit(s[5], 7, 29) | Bit(s[4], 7, 28) |
    Bit(s[3], 7, 27) | Bit(s[2], 7, 26) | Bit(s[1], 7, 25) | Bit(s[0], 7, 24) |
    Bit(s[7], 5, 23) | Bit(s[6], 5, 22) | Bit(s[5], 5, 21) | Bit(s[4], 5, 20) |
    Bit(s[3], 5, 19) | Bit(s[2], 5, 18) | Bit(s[1], 5, 17) | Bit(s[0], 5, 16) |
    Bit(s[7], 3, 15) | Bit(s[6], 3, 14) | Bit(s[5], 3, 13) | Bit(s[4], 3, 12) |
    Bit(s[3], 3, 11) | Bit(s[2], 3, 10) | Bit(s[1], 3, 9) | Bit(s[0], 3, 8) |
    Bit(s[7], 1, 7) | Bit(s[6], 1, 6) | Bit(s[5], 1, 5) | Bit(s[4], 1, 4) |
    Bit(s[3], 1, 3) | Bit(s[2], 1, 2) | Bit(s[1], 1, 1) | Bit(s[0], 1, 0)
  }

  /** The pattern of all eight bytes: four places, each of them from both halves. */
  function Gather(hi: bv32, lo: bv32, a: bv8, b: bv8, c: bv8, d: bv8): Byte
    requires a < 32 && b < 32 && c < 32 && d < 32
  {
    BitR(lo, a, 7) | BitR(hi, a, 6) | BitR(lo, b, 5) | BitR(hi, b, 4) |
    BitR(lo, c, 3) | BitR(hi, c, 2) | BitR(lo, d, 1) | BitR(hi, d, 0)
  }

  function InvIp(hi: bv32, lo: bv32): (b: Block)
    ensures b[0] == Gather(hi, lo, 7, 15, 23, 31) && b[1] == Gather(hi, lo, 6, 14, 22, 30)
    ensures b[2] == Gather(hi, lo, 5, 13, 21, 29) && b[3] == Gather(hi, lo, 4, 12, 20, 28)
    ensures b[4] == Gather(hi, lo, 3, 11, 19, 27) && b[5] == Gather(hi, lo, 2, 10, 18, 26)
    ensures b[6] == Gather(hi, lo, 1, 9, 17, 25) && b[7] == Gather(hi, lo, 0, 8, 16, 24)
  {
    [Gather(hi, lo, 7, 15, 23, 31), Gather(hi, lo, 6, 14, 22, 30), Gather(hi, lo, 5, 13, 21, 29), Gather(hi, lo, 4, 12, 20, 28),
     Gather(hi, lo, 3, 11, 19, 27), Gather(hi, lo, 2, 10, 18, 26), Gather(hi, lo, 1, 9, 17, 25), Gather(hi, lo, 0, 8, 16, 24)]
  }

  // ----- the cipher function f (lines 132-188)

  function Expand1(x: bv32): bv32 {
    BitL(x, 31, 0) | ((x & 0xf0000000) >> 1) | BitL(x, 4, 5) |
    BitL(x, 3, 6) | ((x & 0x0f000000) >> 3) | BitL(x, 8, 11) |
    BitL(x, 7, 12) | ((x & 0x00f00000) >> 5) | BitL(x, 12, 17) |
    BitL(x, 11, 18) | ((x & 0x000f0000) >> 7) | BitL(x, 16, 23)
  }

  function Expand2(x: bv32): bv32 {
    BitL(x, 15, 0) | ((x & 0x0000f000) << 15) | BitL(x, 20, 5) |
    BitL(x, 19, 6) | ((x & 0x00000f00) << 13) | BitL(x, 24, 11) |
    BitL(x, 23, 12) | ((x & 0x000000f0) << 11) | BitL(x, 28, 17) |
    BitL(x, 27, 18) | ((x & 0x0000000f) << 9) | BitL(x, 0, 23)
  }

  /** The byte of `t` that ends `n` places from the right. */
  function ByteOf(t: bv32, n: bv8): Byte
    requires n < 32
  {
    ((t >> n) & 0xff) as Byte
  }

  /** The top three bytes of both words. */
  function TopBytes(t1: bv32, t2: bv32): (e: RoundKey)
    ensures e[0] == ByteOf(t1, 24) && e[1] == ByteOf(t1, 16) && e[2] == ByteOf(t1, 8)
    ensures e[3] == ByteOf(t2, 24) && e[4] == ByteOf(t2, 16) && e[5] == ByteOf(t2, 8)
  {
    [ByteOf(t1, 24), ByteOf(t1, 16), ByteOf(t1, 8), ByteOf(t2, 24), ByteOf(t2, 16), ByteOf(t2, 8)]
  }

  function Expanded(x: bv32): RoundKey {
    TopBytes(Expand1(x), Expand2(x))
  }

  function XorKey(e: RoundKey, k: RoundKey): (x: RoundKey)
    ensures x[0] == XorByte(e[0], k[0]) && x[1] == XorByte(e[1], k[1]) && x[2] == XorByte(e[2], k[2])
    ensures x[3] == XorByte(e[3], k[3]) && x[4] == XorByte(e[4], k[4]) && x[5] == XorByte(e[5], k[5])
  {
    [XorByte(e[0], k[0]), XorByte(e[1], k[1]), XorByte(e[2], k[2]), XorByte(e[3], k[3]), XorByte(e[4], k[4]), XorByte(e[5], k[5])]
  }

  function Substituted(e: RoundKey): bv32 {
    (Sbox1(SboxBit(e[0] >> 2)) << 28) |
    (Sbox2(SboxBit(((e[0] & 0x03) << 4) | (e[1] >> 4))) << 24) |
    (Sbox3(SboxBit(((e[1] & 0x0f) << 2) | (e[2] >> 6))) << 20) |
    (Sbox4(SboxBit(e[2] & 0x3f)) << 16) |
    (Sbox5(SboxBit(e[3] >> 2)) << 12) |
    (Sbox6(SboxBit(((e[3] & 0x03) << 4) | (e[4] >> 4))) << 8) |
    (Sbox7(SboxBit(((e[4] & 0x0f) << 2) | (e[5] >> 6))) << 4) |
    Sbox8(SboxBit(e[5] & 0x3f))
  }

  function Pbox(x: bv32): bv32 {
    BitL(x, 15, 0) | BitL(x, 6, 1) | BitL(x, 19, 2) | BitL(x, 20, 3) |
    BitL(x, 28, 4) | BitL(x, 11, 5) | BitL(x, 27, 6) | BitL(x, 16, 7) |
    BitL(x, 0, 8) | BitL(x, 14, 9) | BitL(x, 22, 10) | BitL(x, 25, 11) |
    BitL(x, 4, 12) | BitL(x, 17, 13) | BitL(x, 30, 14) | BitL(x, 9, 15) |
    BitL(x, 1, 16) | BitL(x, 7, 17) | BitL(x, 23, 18) | BitL(x, 13, 19) |
    BitL(x, 31, 20) | BitL(x, 26, 21) | BitL(x, 2, 22) | BitL(x, 8, 23) |
    BitL(x, 18, 24) | BitL(x, 12, 25) | BitL(x, 29, 26) | BitL(x, 5, 27) |
    BitL(x, 21, 28) | BitL(x, 10, 29) | BitL(x, 3, 30) | BitL(x, 24, 31)
  }

  function F(x: bv32, k: RoundKey): bv32 {
    Pbox(Substituted(XorKey(Expanded(x), k)))
  }
}
