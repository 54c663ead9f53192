/** One round of the table-driven engine computes the standard's cipher function (src/leo_des_crypto.c:541-559). */
module FastRound {
  import opened DesTables
  import opened Bits
  import opened DesKeySpec
  import opened StandardDesSpec
  import opened FastDesSpec

  function Rol1(x: bv32): bv32 {
    (x << 1) | (x >> 31)
  }

  function Ror4(x: bv32): bv32 {
    (x >> 4) | (x << 28)
  }

  /** Six bits of a word, `n` places from the right. */
  function Six(x: bv32, n: bv8): Byte
    requires n < 32
  {
    ((x >> n) & 0x3f) as Byte
  }

  function Sum8(a: bv32, b: bv32, c: bv32, d: bv32, e: bv32, f: bv32, g: bv32, h: bv32): bv32 {
    Xor(Xor(Xor(Xor(Xor(Xor(Xor(a, b), c), d), e), f), g), h)
  }

  /** What a round adds to the left half. */
  function FastF(r: bv32, k: KeyPair): bv32 {
    var x1 := Rol1(r);
    var x2 := Xor(Ror4(x1), k.0);
    var y1 := Xor(x1, k.1);
    Sum8(Psbox7(Six(y1, 0)), Psbox5(Six(y1, 8)), Psbox3(Six(y1, 16)), Psbox1(Six(y1, 24)),
         Psbox6(Six(x2, 0)), Psbox4(Six(x2, 8)), Psbox2(Six(x2, 16)), Psbox0(Six(x2, 24)))
  }

  // ----- the eight groups of six bits of a round key

  function First(a: Byte): Byte {
    a >> 2
  }

  function Second(a: Byte, b: Byte): Byte {
    ((a & 0x03) << 4) | (b >> 4)
  }

  function Third(b: Byte, c: Byte): Byte {
    ((b & 0x0f) << 2) | (c >> 6)
  }

  function Fourth(c: Byte): Byte {
    c & 0x3f
  }

  function Group0(e: RoundKey): Byte {
    First(e[0])
  }

  function Group1(e: RoundKey): Byte {
    Second(e[0], e[1])
  }

  function Group2(e: RoundKey): Byte {
    Third(e[1], e[2])
  }

  function Group3(e: RoundKey): Byte {
    Fourth(e[2])
  }

  function Group4(e: RoundKey): Byte {
    First(e[3])
  }

  function Group5(e: RoundKey): Byte {
    Second(e[3], e[4])
  }

  function Group6(e: RoundKey): Byte {
    Third(e[4], e[5])
  }

  function Group7(e: RoundKey): Byte {
    Fourth(e[5])
  }

  /** Four groups to a word. */
  function FourGroups(a: Byte, b: Byte, c: Byte, d: Byte): bv32 {
    ((a as bv32) << 24) | ((b as bv32) << 16) | ((c as bv32) << 8) | (d as bv32)
  }

  /** The round key as the table-driven engine keeps it: even groups and odd groups. */
  function Packed(k: RoundKey): KeyPair {
    (FourGroups(Group0(k), Group2(k), Group4(k), Group6(k)), FourGroups(Group1(k), Group3(k), Group5(k), Group7(k)))
  }

  lemma FirstXor(a: Byte, a': Byte)
    ensures First(XorByte(a, a')) == XorByte(First(a), First(a'))
  {}

  lemma SecondXor(a: Byte, b: Byte, a': Byte, b': Byte)
    ensures Second(XorByte(a, a'), XorByte(b, b')) == XorByte(Second(a, b), Second(a', b'))
  {}

  lemma ThirdXor(b: Byte, c: Byte, b': Byte, c': Byte)
    ensures Third(XorByte(b, b'), XorByte(c, c')) == XorByte(Third(b, c), Third(b', c'))
  {}

  lemma FourthXor(c: Byte, c': Byte)
    ensures Fourth(XorByte(c, c')) == XorByte(Fourth(c), Fourth(c'))
  {}

  lemma GroupsOfXor(e: RoundKey, k: RoundKey)
    ensures var x := XorKey(e, k);
      && Group0(x) == XorByte(Group0(e), Group0(k)) && Group1(x) == XorByte(Group1(e), Group1(k))
      && Group2(x) == XorByte(Group2(e), Group2(k)) && Group3(x) == XorByte(Group3(e), Group3(k))
      && Group4(x) == XorByte(Group4(e), Group4(k)) && Group5(x) == XorByte(Group5(e), Group5(k))
      && Group6(x) == XorByte(Group6(e), Group6(k)) && Group7(x) == XorByte(Group7(e), Group7(k))
  {
    hide First, Second, Third, Fourth, XorByte, XorKey;
    FirstXor(e[0], k[0]);
    SecondXor(e[0], e[1], k[0], k[1]);
    ThirdXor(e[1], e[2], k[1], k[2]);
    FourthXor(e[2], k[2]);
    FirstXor(e[3], k[3]);
    SecondXor(e[3], e[4], k[3], k[4]);
    ThirdXor(e[4], e[5], k[4], k[5]);
    FourthXor(e[5], k[5]);
  }

  lemma GroupsSmall(k: RoundKey)
    ensures Group0(k) < 64 && Group1(k) < 64 && Group2(k) < 64 && Group3(k) < 64
    ensures Group4(k) < 64 && Group5(k) < 64 && Group6(k) < 64 && Group7(k) < 64
  {}

  /** The E-transpose: two rotations bring every group to its place. */
  lemma GroupsOfExpanded(r: bv32)
    ensures var x := Ror4(Rol1(r)); var e := Expanded(r);
      Group0(e) == Six(x, 24) && Group2(e) == Six(x, 16) && Group4(e) == Six(x, 8) && Group6(e) == Six(x, 0)
    ensures var x := Rol1(r); var e := Expanded(r);
      Group1(e) == Six(x, 24) && Group3(e) == Six(x, 16) && Group5(e) == Six(x, 8) && Group7(e) == Six(x, 0)
  {
    hide Expand1, Expand2, TopBytes, ByteOf, Rol1, Ror4, Six, First, Second, Third, Fourth;
    GroupsOfExpand1(r);
    GroupsOfExpand2(r);
  }

  lemma GroupsOfExpand1(r: bv32)
    ensures var t := Expand1(r);
      && First(ByteOf(t, 24)) == Six(Ror4(Rol1(r)), 24) && Second(ByteOf(t, 24), ByteOf(t, 16)) == Six(Rol1(r), 24)
      && Third(ByteOf(t, 16), ByteOf(t, 8)) == Six(Ror4(Rol1(r)), 16) && Fourth(ByteOf(t, 8)) == Six(Rol1(r), 16)
  {}

  lemma GroupsOfExpand2(r: bv32)
    ensures var t := Expand2(r);
      && First(ByteOf(t, 24)) == Six(Ror4(Rol1(r)), 8) && Second(ByteOf(t, 24), ByteOf(t, 16)) == Six(Rol1(r), 8)
      && Third(ByteOf(t, 16), ByteOf(t, 8)) == Six(Ror4(Rol1(r)), 0) && Fourth(ByteOf(t, 8)) == Six(Rol1(r), 0)
  {}

  lemma SixXor(x: bv32, y: bv32)
    ensures Six(Xor(x, y), 24) == XorByte(Six(x, 24), Six(y, 24))
    ensures Six(Xor(x, y), 16) == XorByte(Six(x, 16), Six(y, 16))
    ensures Six(Xor(x, y), 8) == XorByte(Six(x, 8), Six(y, 8))
    ensures Six(Xor(x, y), 0) == XorByte(Six(x, 0), Six(y, 0))
  {
    SixXorBits(x, y);
  }

  lemma SixXorBits(x: bv32, y: bv32)
    ensures Six(x ^ y, 24) == Six(x, 24) ^ Six(y, 24)
    ensures Six(x ^ y, 16) == Six(x, 16) ^ Six(y, 16)
    ensures Six(x ^ y, 8) == Six(x, 8) ^ Six(y, 8)
    ensures Six(x ^ y, 0) == Six(x, 0) ^ Six(y, 0)
  {}

  lemma SixOfFour(a: Byte, b: Byte, c: Byte, d: Byte)
    requires a < 64 && b < 64 && c < 64 && d < 64
    ensures var y := FourGroups(a, b, c, d); Six(y, 24) == a && Six(y, 16) == b && Six(y, 8) == c && Six(y, 0) == d
  {}

  lemma SixOfXor(x: bv32, a: Byte, b: Byte, c: Byte, d: Byte)
    requires a < 64 && b < 64 && c < 64 && d < 64
    ensures var y := Xor(x, FourGroups(a, b, c, d));
      && Six(y, 24) == XorByte(Six(x, 24), a) && Six(y, 16) == XorByte(Six(x, 16), b)
      && Six(y, 8) == XorByte(Six(x, 8), c) && Six(y, 0) == XorByte(Six(x, 0), d)
  {
    hide Six, Xor, XorByte, FourGroups;
    SixXor(x, FourGroups(a, b, c, d));
    SixOfFour(a, b, c, d);
  }

  // ----- the fused boxes

  lemma PboxXorBits(x: bv32, y: bv32)
    ensures Pbox(x ^ y) == Pbox(x) ^ Pbox(y)
  {}

  lemma PboxXor(x: bv32, y: bv32)
    ensures Pbox(Xor(x, y)) == Xor(Pbox(x), Pbox(y))
  {
    hide Pbox;
    PboxXorBits(x, y);
  }

  lemma Fused0(j: Byte)
    requires j < 64
    ensures Psbox0(j) == Pbox(Sbox1(SboxBit(j)) << 28)
  {}

  lemma Fused1(j: Byte)
    requires j < 64
    ensures Psbox1(j) == Pbox(Sbox2(SboxBit(j)) << 24)
  {}

  lemma Fused2(j: Byte)
    requires j < 64
    ensures Psbox2(j) == Pbox(Sbox3(SboxBit(j)) << 20)
  {}

  lemma Fused3(j: Byte)
    requires j < 64
    ensures Psbox3(j) == Pbox(Sbox4(SboxBit(j)) << 16)
  {}

  lemma Fused4(j: Byte)
    requires j < 64
    ensures Psbox4(j) == Pbox(Sbox5(SboxBit(j)) << 12)
  {}

  lemma Fused5(j: Byte)
    requires j < 64
    ensures Psbox5(j) == Pbox(Sbox6(SboxBit(j)) << 8)
  {}

  lemma Fused6(j: Byte)
    requires j < 64
    ensures Psbox6(j) == Pbox(Sbox7(SboxBit(j)) << 4)
  {}

  lemma Fused7(j: Byte)
    requires j < 64
    ensures Psbox7(j) == Pbox(Sbox8(SboxBit(j)))
  {
    hide Pbox;
    SboxSmall(SboxBit(j));
    PboxLow(Sbox8(SboxBit(j)));
  }

  lemma PboxLow(v: bv32)
    requires v < 16
    ensures Pbox(v) == ((v & 8) << 24) | ((v & 4) << 3) | ((v & 2) << 16) | ((v & 1) << 11)
  {}

  /** Eight nibbles side by side. */
  function Nibbles(a: bv32, b: bv32, c: bv32, d: bv32, e: bv32, f: bv32, g: bv32, h: bv32): bv32 {
    (a << 28) | (b << 24) | (c << 20) | (d << 16) | (e << 12) | (f << 8) | (g << 4) | h
  }

  lemma NibblesApart(a: bv32, b: bv32, c: bv32, d: bv32, e: bv32, f: bv32, g: bv32, h: bv32)
    requires a < 16 && b < 16 && c < 16 && d < 16 && e < 16 && f < 16 && g < 16 && h < 16
    ensures Nibbles(a, b, c, d, e, f, g, h) == Sum8(h, f << 8, d << 16, b << 24, g << 4, e << 12, c << 20, a << 28)
  {}

  lemma Sbox1Small(j: Byte)
    ensures Sbox1(j) < 16
  {}

  lemma Sbox2Small(j: Byte)
    ensures Sbox2(j) < 16
  {}

  lemma Sbox3Small(j: Byte)
    ensures Sbox3(j) < 16
  {}

  lemma Sbox4Small(j: Byte)
    ensures Sbox4(j) < 16
  {}

  lemma Sbox5Small(j: Byte)
    ensures Sbox5(j) < 16
  {}

  lemma Sbox6Small(j: Byte)
    ensures Sbox6(j) < 16
  {}

  lemma Sbox7Small(j: Byte)
    ensures Sbox7(j) < 16
  {}

  lemma Sbox8Small(j: Byte)
    ensures Sbox8(j) < 16
  {}

  lemma SboxSmall(j: Byte)
    ensures Sbox1(j) < 16 && Sbox2(j) < 16 && Sbox3(j) < 16 && Sbox4(j) < 16
    ensures Sbox5(j) < 16 && Sbox6(j) < 16 && Sbox7(j) < 16 && Sbox8(j) < 16
  {
    hide Sbox1, Sbox2, Sbox3, Sbox4, Sbox5, Sbox6, Sbox7, Sbox8;
    Sbox1Small(j);
    Sbox2Small(j);
    Sbox3Small(j);
    Sbox4Small(j);
    Sbox5Small(j);
    Sbox6Small(j);
    Sbox7Small(j);
    Sbox8Small(j);
  }

  lemma PboxSum8(a: bv32, b: bv32, c: bv32, d: bv32, e: bv32, f: bv32, g: bv32, h: bv32)
    ensures Pbox(Sum8(a, b, c, d, e, f, g, h)) == Sum8(Pbox(a), Pbox(b), Pbox(c), Pbox(d), Pbox(e), Pbox(f), Pbox(g), Pbox(h))
  {
    hide Pbox, Xor;
    var s2 := Xor(a, b);
    var s3 := Xor(s2, c);
    var s4 := Xor(s3, d);
    var s5 := Xor(s4, e);
    var s6 := Xor(s5, f);
    PboxXor(a, b);
    PboxXor(s2, c);
    PboxXor(s3, d);
    PboxXor(s4, e);
    PboxXor(s5, f);
    PboxXor(s6, g);
    PboxXor(Xor(s6, g), h);
  }

  /** P of the eight nibbles together is P of each. */
  lemma PboxOfNibbles(a: bv32, b: bv32, c: bv32, d: bv32, e: bv32, f: bv32, g: bv32, h: bv32)
    requires a < 16 && b < 16 && c < 16 && d < 16 && e < 16 && f < 16 && g < 16 && h < 16
    ensures Pbox(Nibbles(a, b, c, d, e, f, g, h)) ==
            Sum8(Pbox(h), Pbox(f << 8), Pbox(d << 16), Pbox(b << 24), Pbox(g << 4), Pbox(e << 12), Pbox(c << 20), Pbox(a << 28))
  {
    hide Pbox, Sum8, Nibbles;
    NibblesApart(a, b, c, d, e, f, g, h);
    PboxSum8(h, f << 8, d << 16, b << 24, g << 4, e << 12, c << 20, a << 28);
  }

  /** The fast round computes the standard's cipher function. */
  lemma FastFIsF(r: bv32, k: RoundKey)
    ensures FastF(r, Packed(k)) == F(r, k)
  {
    hide Xor, XorByte, Sum8, Rol1, Ror4, Six, FourGroups, Expanded, XorKey, Pbox, Substituted;
    hide Group0, Group1, Group2, Group3, Group4, Group5, Group6, Group7;
    hide Sbox1, Sbox2, Sbox3, Sbox4, Sbox5, Sbox6, Sbox7, Sbox8;
    hide Psbox0, Psbox1, Psbox2, Psbox3, Psbox4, Psbox5, Psbox6, Psbox7;
    var e := Expanded(r);
    var x := XorKey(e, k);
    GroupsOfExpanded(r);
    GroupsOfXor(e, k);
    GroupsSmall(k);
    GroupsSmall(x);
    SixOfXor(Ror4(Rol1(r)), Group0(k), Group2(k), Group4(k), Group6(k));
    SixOfXor(Rol1(r), Group1(k), Group3(k), Group5(k), Group7(k));
    FusedAll(x);
  }

  /** The S-box inputs as groups. */
  lemma GroupsAreIndices(x: RoundKey)
    ensures Substituted(x) ==
      Nibbles(Sbox1(SboxBit(Group0(x))), Sbox2(SboxBit(Group1(x))), Sbox3(SboxBit(Group2(x))), Sbox4(SboxBit(Group3(x))),
              Sbox5(SboxBit(Group4(x))), Sbox6(SboxBit(Group5(x))), Sbox7(SboxBit(Group6(x))), Sbox8(SboxBit(Group7(x))))
  {
    hide SboxBit, Sbox1, Sbox2, Sbox3, Sbox4, Sbox5, Sbox6, Sbox7, Sbox8;
  }

  lemma FusedAll(x: RoundKey)
    ensures Pbox(Substituted(x)) ==
      Sum8(Psbox7(Group7(x)), Psbox5(Group5(x)), Psbox3(Group3(x)), Psbox1(Group1(x)),
           Psbox6(Group6(x)), Psbox4(Group4(x)), Psbox2(Group2(x)), Psbox0(Group0(x)))
  {
    hide Sum8, Nibbles, Pbox, SboxBit, Substituted, Group0, Group1, Group2, Group3, Group4, Group5, Group6, Group7;
    hide Sbox1, Sbox2, Sbox3, Sbox4, Sbox5, Sbox6, Sbox7, Sbox8;
    hide Psbox0, Psbox1, Psbox2, Psbox3, Psbox4, Psbox5, Psbox6, Psbox7;
    GroupsSmall(x);
    GroupsAreIndices(x);
    Fused0(Group0(x));
    Fused1(Group1(x));
    Fused2(Group2(x));
    Fused3(Group3(x));
    Fused4(Group4(x));
    Fused5(Group5(x));
    Fused6(Group6(x));
    Fused7(Group7(x));
    SboxSmall(SboxBit(Group0(x)));
    SboxSmall(SboxBit(Group1(x)));
    SboxSmall(SboxBit(Group2(x)));
    SboxSmall(SboxBit(Group3(x)));
    SboxSmall(SboxBit(Group4(x)));
    SboxSmall(SboxBit(Group5(x)));
    SboxSmall(SboxBit(Group6(x)));
    SboxSmall(SboxBit(Group7(x)));
    PboxOfNibbles(Sbox1(SboxBit(Group0(x))), Sbox2(SboxBit(Group1(x))), Sbox3(SboxBit(Group2(x))), Sbox4(SboxBit(Group3(x))),
                  Sbox5(SboxBit(Group4(x))), Sbox6(SboxBit(Group5(x))), Sbox7(SboxBit(Group6(x))), Sbox8(SboxBit(Group7(x))));
  }
}
