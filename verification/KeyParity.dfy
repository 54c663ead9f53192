/** The schedule depends on the 56 bits of the key that are not parity bits, and on every one of them (FIPS 46-3, Appendix 1). */
module KeyParity {
  import opened Bits
  import opened DesKeySpec
  import opened StandardDes
  import opened FastDesKeys

  /** The keys agree but for the last bit of every byte. */
  predicate SameButParity(k1: Block, k2: Block) {
    forall i :: 0 <= i < 8 ==> NoParity(k1[i]) == NoParity(k2[i])
  }

  function NoParity(x: Byte): Byte {
    x & 0xfe
  }

  // ----- nothing else matters

  lemma HighBits(x: Byte, y: Byte, i: bv8)
    requires NoParity(x) == NoParity(y) && i < 7
    ensures ByteBit(x, i) == ByteBit(y, i)
  {}

  lemma SameByteAt(k1: Block, k2: Block, k: bv8)
    requires SameButParity(k1, k2)
    ensures NoParity(ByteAt(k1, k)) == NoParity(ByteAt(k2, k))
  {
    hide NoParity;
  }

  lemma SameKeyBit(k1: Block, k2: Block, b: bv8)
    requires SameButParity(k1, k2) && b < 64 && b & 7 != 7
    ensures KeyBit(k1, b) == KeyBit(k2, b)
  {
    hide ByteBit, ByteAt, NoParity, SameButParity;
    SameByteAt(k1, k2, b >> 3);
    HighBits(ByteAt(k1, b >> 3), ByteAt(k2, b >> 3), b & 7);
  }

  lemma SameRoundBit(k1: Block, k2: Block, n: nat, j: bv8)
    requires SameButParity(k1, k2) && n < 16 && j < 48
    ensures RoundBit(k1, n, j) == RoundBit(k2, n, j)
  {
    hide SameButParity, KeyBit, PermC, PermD, Turned, Compress, TotalShift, Index, Pc1;
    var q, t := Compress(j), TotalShift(n + 1);
    if q < 28 {
      Pc1There(Turned(q, t));
      SameKeyBit(k1, k2, PermC(Turned(q, t)));
    } else {
      Pc1There(Turned(q - 28, t));
      SameKeyBit(k1, k2, PermD(Turned(q - 28, t)));
    }
  }

  lemma SameKeyOfRound(k1: Block, k2: Block, n: nat)
    requires SameButParity(k1, k2) && n < 16
    ensures KeyOfRound(k1, n) == KeyOfRound(k2, n)
  {
    hide SameButParity, RoundBit, BytesOf;
    var f, g := RoundBits(k1, n), RoundBits(k2, n);
    forall j: bv8 | j < 48
      ensures f(j) == g(j)
    {
      SameRoundBit(k1, k2, n, j);
    }
    SameBits(f, g);
  }

  // ----- every other bit does

  /** Where the compression puts bit `q` of the halves; 255 if it is dropped. */
  function Compressed(q: bv8): bv8 {
    if q & 32 == 0 then
      if q & 16 == 0 then
        if q & 8 == 0 then
          if q & 4 == 0 then
            Pick(q, 4, 23, 6, 15)
          else
            Pick(q, 5, 9, 19, 17)
        else
          if q & 4 == 0 then
            Pick(q, 255, 11, 2, 14)
          else
            Pick(q, 22, 0, 8, 18)
      else
        if q & 8 == 0 then
          if q & 4 == 0 then
            Pick(q, 1, 255, 13, 21)
          else
            Pick(q, 10, 255, 12, 3)
        else
          if q & 4 == 0 then
            Pick(q, 255, 16, 20, 7)
          else
            Pick(q, 46, 30, 26, 47)
    else
      if q & 16 == 0 then
        if q & 8 == 0 then
          if q & 4 == 0 then
            Pick(q, 34, 40, 255, 45)
          else
            Pick(q, 27, 255, 38, 31)
        else
          if q & 4 == 0 then
            Pick(q, 24, 43, 255, 36)
          else
            Pick(q, 33, 42, 28, 35)
      else
        if q & 8 == 0 then
          if q & 4 == 0 then
            Pick(q, 37, 44, 32, 25)
          else
            Pick(q, 41, 255, 29, 39)
        else
          if q & 4 == 0 then
            Pick(q, 0, 0, 0, 0)
          else
            Pick(q, 0, 0, 0, 0)
  }

  lemma CompressedThere(q: bv8)
    requires q < 56 && Compressed(q) < 48
    ensures Compress(Compressed(q)) == q
  {}

  /** The place before `m` in its half. */
  function Before(m: bv8): bv8 {
    if m == 0 then 27 else m - 1
  }

  /** A bit that one round drops is not dropped by the next. */
  lemma NotDroppedTwice(q: bv8)
    requires q < 28
    ensures Compressed(q) < 48 || Compressed(Before(q)) < 48
    ensures Compressed(q + 28) < 48 || Compressed(Before(q) + 28) < 48
  {}

  lemma TurnedBack(m: bv8)
    requires m < 28
    ensures Before(m) < 28 && Turned(Before(m), 1) == m && Turned(Before(Before(m)), 2) == m && Before(Before(m)) < 28
  {}

  ghost predicate SameRoundBits(k1: Block, k2: Block, n: nat)
    requires n < 16
  {
    forall j: bv8 :: j < 48 ==> RoundBit(k1, n, j) == RoundBit(k2, n, j)
  }

  /** The first two rounds show every bit of the first half. */
  lemma SeenC(k1: Block, k2: Block, m: bv8)
    requires m < 28 && SameRoundBits(k1, k2, 0) && SameRoundBits(k1, k2, 1)
    ensures KeyBit(k1, PermC(m)) == KeyBit(k2, PermC(m))
  {
    hide KeyBit, PermC, PermD, Turned, Compress, Compressed, Before;
    var q := Before(m);
    TurnedBack(m);
    NotDroppedTwice(q);
    if Compressed(q) < 48 {
      CompressedThere(q);
      assert RoundBit(k1, 0, Compressed(q)) == RoundBit(k2, 0, Compressed(q));
    } else {
      CompressedThere(Before(q));
      assert RoundBit(k1, 1, Compressed(Before(q))) == RoundBit(k2, 1, Compressed(Before(q)));
    }
  }

  lemma SeenD(k1: Block, k2: Block, m: bv8)
    requires m < 28 && SameRoundBits(k1, k2, 0) && SameRoundBits(k1, k2, 1)
    ensures KeyBit(k1, PermD(m)) == KeyBit(k2, PermD(m))
  {
    hide KeyBit, PermC, PermD, Turned, Compress, Compressed, Before;
    var q := Before(m);
    TurnedBack(m);
    NotDroppedTwice(q);
    if Compressed(q + 28) < 48 {
      CompressedThere(q + 28);
      assert RoundBit(k1, 0, Compressed(q + 28)) == RoundBit(k2, 0, Compressed(q + 28));
    } else {
      CompressedThere(Before(q) + 28);
      assert RoundBit(k1, 1, Compressed(Before(q) + 28)) == RoundBit(k2, 1, Compressed(Before(q) + 28));
    }
  }

  lemma BitsOfByte(a0: bool, a1: bool, a2: bool, a3: bool, a4: bool, a5: bool, a6: bool, a7: bool, b0: bool, b1: bool, b2: bool, b3: bool, b4: bool, b5: bool, b6: bool, b7: bool)
    requires ByteOfBits(a0, a1, a2, a3, a4, a5, a6, a7) == ByteOfBits(b0, b1, b2, b3, b4, b5, b6, b7)
    ensures a0 == b0 && a1 == b1 && a2 == b2 && a3 == b3 && a4 == b4 && a5 == b5 && a6 == b6 && a7 == b7
  {}

  lemma SameFrom0(f: Bits48, g: Bits48, j: bv8)
    requires Byte8(f, 0) == Byte8(g, 0) && 0 <= j < 8
    ensures f(j) == g(j)
  {
    hide ByteOfBits;
    BitsOfByte(f(0), f(1), f(2), f(3), f(4), f(5), f(6), f(7), g(0), g(1), g(2), g(3), g(4), g(5), g(6), g(7));
  }

  lemma SameFrom8(f: Bits48, g: Bits48, j: bv8)
    requires Byte8(f, 8) == Byte8(g, 8) && 8 <= j < 16
    ensures f(j) == g(j)
  {
    hide ByteOfBits;
    BitsOfByte(f(8), f(9), f(10), f(11), f(12), f(13), f(14), f(15), g(8), g(9), g(10), g(11), g(12), g(13), g(14), g(15));
  }

  lemma SameFrom16(f: Bits48, g: Bits48, j: bv8)
    requires Byte8(f, 16) == Byte8(g, 16) && 16 <= j < 24
    ensures f(j) == g(j)
  {
    hide ByteOfBits;
    BitsOfByte(f(16), f(17), f(18), f(19), f(20), f(21), f(22), f(23), g(16), g(17), g(18), g(19), g(20), g(21), g(22), g(23));
  }

  lemma SameFrom24(f: Bits48, g: Bits48, j: bv8)
    requires Byte8(f, 24) == Byte8(g, 24) && 24 <= j < 32
    ensures f(j) == g(j)
  {
    hide ByteOfBits;
    BitsOfByte(f(24), f(25), f(26), f(27), f(28), f(29), f(30), f(31), g(24), g(25), g(26), g(27), g(28), g(29), g(30), g(31));
  }

  lemma SameFrom32(f: Bits48, g: Bits48, j: bv8)
    requires Byte8(f, 32) == Byte8(g, 32) && 32 <= j < 40
    ensures f(j) == g(j)
  {
    hide ByteOfBits;
    BitsOfByte(f(32), f(33), f(34), f(35), f(36), f(37), f(38), f(39), g(32), g(33), g(34), g(35), g(36), g(37), g(38), g(39));
  }

  lemma SameFrom40(f: Bits48, g: Bits48, j: bv8)
    requires Byte8(f, 40) == Byte8(g, 40) && 40 <= j < 48
    ensures f(j) == g(j)
  {
    hide ByteOfBits;
    BitsOfByte(f(40), f(41), f(42), f(43), f(44), f(45), f(46), f(47), g(40), g(41), g(42), g(43), g(44), g(45), g(46), g(47));
  }

  lemma SameBytesSameBit(f: Bits48, g: Bits48, j: bv8)
    requires BytesOf(f) == BytesOf(g) && j < 48
    ensures f(j) == g(j)
  {
    hide Byte8, BytesOf;
    SameBytesEach(f, g);
    if j < 8 {
      SameFrom0(f, g, j);
    } else if j < 16 {
      SameFrom8(f, g, j);
    } else if j < 24 {
      SameFrom16(f, g, j);
    } else if j < 32 {
      SameFrom24(f, g, j);
    } else if j < 40 {
      SameFrom32(f, g, j);
    } else {
      SameFrom40(f, g, j);
    }
  }

  lemma SameBytesEach(f: Bits48, g: Bits48)
    requires BytesOf(f) == BytesOf(g)
    ensures Byte8(f, 0) == Byte8(g, 0) && Byte8(f, 8) == Byte8(g, 8) && Byte8(f, 16) == Byte8(g, 16)
    ensures Byte8(f, 24) == Byte8(g, 24) && Byte8(f, 32) == Byte8(g, 32) && Byte8(f, 40) == Byte8(g, 40)
  {
    hide Byte8;
    var x, y := BytesOf(f), BytesOf(g);
    assert x[0] == y[0] && x[1] == y[1] && x[2] == y[2] && x[3] == y[3] && x[4] == y[4] && x[5] == y[5];
  }

  lemma SeenRound(k1: Block, k2: Block, n: nat)
    requires n < 16 && KeyOfRound(k1, n) == KeyOfRound(k2, n)
    ensures SameRoundBits(k1, k2, n)
  {
    hide RoundBit, BytesOf;
    var f, g := RoundBits(k1, n), RoundBits(k2, n);
    forall j: bv8 | j < 48
      ensures RoundBit(k1, n, j) == RoundBit(k2, n, j)
    {
      SameBytesSameBit(f, g, j);
      assert f(j) == RoundBit(k1, n, j) && g(j) == RoundBit(k2, n, j);
    }
  }

  lemma SeenBit(k1: Block, k2: Block, b: bv8)
    requires SameRoundBits(k1, k2, 0) && SameRoundBits(k1, k2, 1) && b < 64 && b & 7 != 7
    ensures KeyBit(k1, b) == KeyBit(k2, b)
  {
    hide SameRoundBits, KeyBit, PermC, PermD, Pc1, Index;
    IndexSmall(b);
    var v := Pc1(Index(b));
    Pc1Back(Index(b));
    if v >= 28 {
      Pc1There(55 - v);
      IndexInjective(PermC(55 - v), b);
      SeenC(k1, k2, 55 - v);
    } else {
      Pc1There(27 - v);
      IndexInjective(PermD(27 - v), b);
      SeenD(k1, k2, 27 - v);
    }
  }

  lemma IndexSmall(b: bv8)
    requires b < 64 && b & 7 != 7
    ensures Index(b) < 56
  {}

  lemma SeenByte(x: Byte, y: Byte)
    requires forall i: bv8 :: i < 7 ==> ByteBit(x, i) == ByteBit(y, i)
    ensures NoParity(x) == NoParity(y)
  {
    assert ByteBit(x, 0) == ByteBit(y, 0) && ByteBit(x, 1) == ByteBit(y, 1) && ByteBit(x, 2) == ByteBit(y, 2) && ByteBit(x, 3) == ByteBit(y, 3);
    assert ByteBit(x, 4) == ByteBit(y, 4) && ByteBit(x, 5) == ByteBit(y, 5) && ByteBit(x, 6) == ByteBit(y, 6);
  }

  lemma SeenByteAt(k1: Block, k2: Block, k: bv8)
    requires SameRoundBits(k1, k2, 0) && SameRoundBits(k1, k2, 1) && k < 8
    ensures NoParity(ByteAt(k1, k)) == NoParity(ByteAt(k2, k))
  {
    hide SameRoundBits, ByteBit, NoParity, ByteAt;
    forall i: bv8 | i < 7
      ensures ByteBit(ByteAt(k1, k), i) == ByteBit(ByteAt(k2, k), i)
    {
      BitPlace(k, i);
      SeenBit(k1, k2, KeyPlace(k, i));
    }
    SeenByte(ByteAt(k1, k), ByteAt(k2, k));
  }

  lemma BitPlace(k: bv8, i: bv8)
    requires k < 8 && i < 7
    ensures var b := KeyPlace(k, i); b < 64 && b >> 3 == k && b & 7 == i && b & 7 != 7
  {}

  /** Two keys have the same schedule exactly when they agree up to parity. */
  lemma SameScheduleIff(k1: Block, k2: Block, mode: Mode)
    ensures ScheduleFor(k1, mode) == ScheduleFor(k2, mode) <==> SameButParity(k1, k2)
  {
    hide KeyOfRound, NoParity;
    if SameButParity(k1, k2) {
      forall g | 0 <= g < 16
        ensures KeyOfRound(k1, ToGen(mode, g)) == KeyOfRound(k2, ToGen(mode, g))
      {
        SameKeyOfRound(k1, k2, ToGen(mode, g));
      }
    }
    if ScheduleFor(k1, mode) == ScheduleFor(k2, mode) {
      assert ScheduleFor(k1, mode)[ToGen(mode, 0)] == ScheduleFor(k2, mode)[ToGen(mode, 0)];
      assert ScheduleFor(k1, mode)[ToGen(mode, 1)] == ScheduleFor(k2, mode)[ToGen(mode, 1)];
      SeenRound(k1, k2, 0);
      SeenRound(k1, k2, 1);
      SeenKey(k1, k2);
    }
  }

  lemma SeenKey(k1: Block, k2: Block)
    requires SameRoundBits(k1, k2, 0) && SameRoundBits(k1, k2, 1)
    ensures SameButParity(k1, k2)
  {
    hide SameRoundBits, NoParity;
    SeenByteAt(k1, k2, 0);
    SeenByteAt(k1, k2, 1);
    SeenByteAt(k1, k2, 2);
    SeenByteAt(k1, k2, 3);
    SeenByteAt(k1, k2, 4);
    SeenByteAt(k1, k2, 5);
    SeenByteAt(k1, k2, 6);
    SeenByteAt(k1, k2, 7);
  }
}
