/** Which changes of a message the checksum notices (src/leo_dof_crypto.c:98-128). */
module ErrorDetection {
  import opened Bits
  import opened FrameChecksum

  // ----- linearity

  lemma XorSwap(a: bv32, b: bv32, c: bv32, d: bv32)
    ensures Xor(Xor(a, b), Xor(c, d)) == Xor(Xor(a, c), Xor(b, d))
  {
    hide Xor;
    XorAssoc(a, b, Xor(c, d));
    XorAssoc(b, c, d);
    XorSymmetric(b, c);
    XorAssoc(c, b, d);
    XorAssoc(a, c, Xor(b, d));
  }

  lemma HalveXor(x: bv32, y: bv32)
    ensures Halve(Xor(x, y)) == Xor(Halve(x), Halve(y))
  {
    hide Xor, ShiftLow, LowBit;
    ShiftLowXor(x, y);
    XorSwap(ShiftLow(x), ShiftLow(y), if LowBit(x) then 0xedb88320 else 0, if LowBit(y) then 0xedb88320 else 0);
    LowBitXor(x, y);
  }

  lemma ShiftLowXor(x: bv32, y: bv32)
    ensures ShiftLow(Xor(x, y)) == Xor(ShiftLow(x), ShiftLow(y))
  {
    assert (x ^ y) >> 1 == (x >> 1) ^ (y >> 1);
  }

  lemma LowBitXor(x: bv32, y: bv32)
    ensures Xor(if LowBit(x) then 0xedb88320 else 0, if LowBit(y) then 0xedb88320 else 0) == if LowBit(Xor(x, y)) then 0xedb88320 else 0
  {
    assert (x ^ y) & 1 == (x & 1) ^ (y & 1);
  }

  lemma XorWiden(x: Byte, y: Byte)
    ensures XorByte(x, y) as bv32 == Xor(x as bv32, y as bv32)
  {}

  /** The table is linear over exclusive or. */
  lemma EntryXor(x: Byte, y: Byte)
    ensures Entry(XorByte(x, y)) == Xor(Entry(x), Entry(y))
  {
    hide Halve, Xor, XorByte;
    var a1, b1 := Halve(x as bv32), Halve(y as bv32);
    var a2, b2 := Halve(a1), Halve(b1);
    var a3, b3 := Halve(a2), Halve(b2);
    var a4, b4 := Halve(a3), Halve(b3);
    var a5, b5 := Halve(a4), Halve(b4);
    var a6, b6 := Halve(a5), Halve(b5);
    XorWiden(x, y);
    HalveXor(x as bv32, y as bv32);
    HalveXor(a1, b1);
    HalveXor(a2, b2);
    HalveXor(a3, b3);
    HalveXor(a4, b4);
    HalveXor(a5, b5);
    HalveXor(a6, b6);
    HalveXor(Halve(a6), Halve(b6));
  }

  lemma AppendedXor(s: bv32, t: bv32, c: Byte, d: Byte)
    ensures Appended(Xor(s, t), XorByte(c, d)) == Xor(Appended(s, c), Appended(t, d))
  {
    AppendedXorBits(s, t, c, d);
  }

  lemma AppendedXorBits(s: bv32, t: bv32, c: Byte, d: Byte)
    ensures ((s ^ t) << 8) | ((c ^ d) as bv32) == ((s << 8) | (c as bv32)) ^ ((t << 8) | (d as bv32))
  {}

  lemma TopByteXor(s: bv32, t: bv32)
    ensures TopByte(Xor(s, t)) == XorByte(TopByte(s), TopByte(t))
  {
    TopByteXorBits(s, t);
  }

  lemma TopByteXorBits(s: bv32, t: bv32)
    ensures ((s ^ t) >> 24) as Byte == ((s >> 24) as Byte) ^ ((t >> 24) as Byte)
  {}

  /** Feeding a byte is linear in the state and the byte together. */
  lemma FedXor(s: bv32, t: bv32, c: Byte, d: Byte)
    ensures Fed(Xor(s, t), XorByte(c, d)) == Xor(Fed(s, c), Fed(t, d))
  {
    hide Xor, XorByte, Appended, TopByte, Entry;
    AppendedXor(s, t, c, d);
    TopByteXor(s, t);
    EntryXor(TopByte(s), TopByte(t));
    XorSwap(Appended(s, c), Appended(t, d), Entry(TopByte(s)), Entry(TopByte(t)));
  }

  function XorSeq(a: seq<Byte>, b: seq<Byte>): (d: seq<Byte>)
    requires |a| == |b|
    ensures |d| == |a| && forall i :: 0 <= i < |d| ==> d[i] == XorByte(a[i], b[i])
  {
    seq(|a|, i requires 0 <= i < |a| => XorByte(a[i], b[i]))
  }

  /** The checksum of a sum is the sum of the checksums. */
  lemma {:induction false} CrcXor(s: bv32, t: bv32, a: seq<Byte>, b: seq<Byte>)
    requires |a| == |b|
    ensures Crc(Xor(s, t), XorSeq(a, b)) == Xor(Crc(s, a), Crc(t, b))
    decreases |a|
  {
    hide Fed, Xor, XorByte, XorSeq;
    if a != [] {
      FedXor(s, t, a[0], b[0]);
      assert XorSeq(a, b)[1..] == XorSeq(a[1..], b[1..]);
      CrcXor(Fed(s, a[0]), Fed(t, b[0]), a[1..], b[1..]);
    }
  }

  // ----- every step is a bijection

  /** The table as the sum of eight words. */
  function Summed(x: Byte): bv32 {
    (if x & 1 == 0 then 0 else 0x77073096) ^ (if x & 2 == 0 then 0 else 0xee0e612c) ^
    (if x & 4 == 0 then 0 else 0x076dc419) ^ (if x & 8 == 0 then 0 else 0x0edb8832) ^
    (if x & 16 == 0 then 0 else 0x1db71064) ^ (if x & 32 == 0 then 0 else 0x3b6e20c8) ^
    (if x & 64 == 0 then 0 else 0x76dc4190) ^ (if x & 128 == 0 then 0 else 0xedb88320)
  }

  lemma EntrySummed(x: Byte)
    ensures Entry(x) == Summed(x)
  {}

  lemma SummedLow(x: Byte)
    ensures Summed(x) & 0xff == 0 ==> x == 0
  {}

  lemma LowZero(x: bv32, y: bv32)
    requires x & 0xff == y & 0xff
    ensures Xor(x, y) & 0xff == 0
  {}

  lemma ZeroMeansSame(x: Byte, y: Byte)
    ensures XorByte(x, y) == 0 <==> x == y
  {}

  /** The low byte of an entry tells which entry it is. */
  lemma LowByteTells(x: Byte, y: Byte)
    requires Entry(x) & 0xff == Entry(y) & 0xff
    ensures x == y
  {
    hide Entry, Summed, Xor, XorByte;
    EntryXor(x, y);
    EntrySummed(XorByte(x, y));
    LowZero(Entry(x), Entry(y));
    SummedLow(XorByte(x, y));
    ZeroMeansSame(x, y);
  }

  lemma LowOfFed(s: bv32, c: Byte, e: bv32, f: bv32, t: bv32)
    requires Xor(Appended(s, c), e) == Xor(Appended(t, c), f)
    ensures e & 0xff == f & 0xff && (e == f && TopByte(s) == TopByte(t) ==> s == t)
  {}

  /** No two states meet when the same byte is fed. */
  lemma FedInjective(s: bv32, t: bv32, c: Byte)
    requires Fed(s, c) == Fed(t, c)
    ensures s == t
  {
    hide Xor, Appended, TopByte, Entry;
    LowOfFed(s, c, Entry(TopByte(s)), Entry(TopByte(t)), t);
    LowByteTells(TopByte(s), TopByte(t));
  }

  lemma {:induction false} CrcInjective(s: bv32, t: bv32, data: seq<Byte>)
    requires Crc(s, data) == Crc(t, data)
    ensures s == t
    decreases |data|
  {
    hide Fed;
    if data != [] {
      CrcInjective(Fed(s, data[0]), Fed(t, data[0]), data[1..]);
      FedInjective(s, t, data[0]);
    }
  }

  // ----- what goes unnoticed

  /** `n` zero bytes. */
  function Zeros(n: nat): (z: seq<Byte>)
    ensures |z| == n && forall i :: 0 <= i < n ==> z[i] == 0
  {
    seq(n, _ => 0)
  }

  lemma FedZero()
    ensures Fed(0, 0) == 0
  {}

  lemma {:induction false} CrcZeros(n: nat)
    ensures Crc(0, Zeros(n)) == 0
  {
    hide Fed, Zeros;
    if n > 0 {
      FedZero();
      assert Zeros(n)[1..] == Zeros(n - 1);
      CrcZeros(n - 1);
    }
  }

  lemma XorSame(x: bv32, y: bv32)
    ensures Xor(x, y) == 0 <==> x == y
  {}

  /** Two messages have the same checksum exactly when their difference has checksum zero. */
  lemma SameIff(a: seq<Byte>, b: seq<Byte>)
    requires |a| == |b|
    ensures Crc(0, a) == Crc(0, b) <==> Crc(0, XorSeq(a, b)) == 0
  {
    hide Crc, XorSeq, Xor;
    CrcXor(0, 0, a, b);
    XorSame(0, 0);
    XorSame(Crc(0, a), Crc(0, b));
  }

  /** Zeros in front of a difference and behind it change nothing. */
  lemma OnlyTheWindow(n: nat, w: seq<Byte>, m: nat)
    ensures Crc(0, Zeros(n) + w + Zeros(m)) == 0 <==> Crc(0, w) == 0
  {
    hide Crc, Zeros;
    CrcAppend(0, Zeros(n) + w, Zeros(m));
    CrcAppend(0, Zeros(n), w);
    CrcZeros(n);
    CrcZeros(m);
    if Crc(Crc(0, w), Zeros(m)) == 0 {
      CrcInjective(Crc(0, w), 0, Zeros(m));
    }
  }

  /** The messages agree outside the `n` bytes from `i` on. */
  ghost predicate DifferInside(a: seq<Byte>, b: seq<Byte>, i: nat, n: nat) {
    |a| == |b| && i + n <= |a| && a[..i] == b[..i] && a[i + n..] == b[i + n..]
  }

  /** A change inside a window goes unnoticed exactly when the window's difference alone has checksum zero. */
  lemma UnnoticedIff(a: seq<Byte>, b: seq<Byte>, i: nat, n: nat)
    requires DifferInside(a, b, i, n)
    ensures Crc(0, a) == Crc(0, b) <==> Crc(0, XorSeq(a[i..i + n], b[i..i + n])) == 0
  {
    hide Crc, XorSeq, XorByte, Zeros;
    var d, w := XorSeq(a, b), XorSeq(a[i..i + n], b[i..i + n]);
    var m := |a| - i - n;
    forall k | 0 <= k < |d|
      ensures d[k] == (Zeros(i) + w + Zeros(m))[k]
    {
      ZeroMeansSame(a[k], b[k]);
      if k < i {
        assert a[k] == a[..i][k] && b[k] == b[..i][k];
      } else if k >= i + n {
        assert a[k] == a[i + n..][k - i - n] && b[k] == b[i + n..][k - i - n];
      }
    }
    assert d == Zeros(i) + w + Zeros(m);
    SameIff(a, b);
    OnlyTheWindow(i, w, m);
  }

  /** Four bytes as a word, the first on top. */
  function Word(a: Byte, b: Byte, c: Byte, d: Byte): bv32 {
    ((a as bv32) << 24) | ((b as bv32) << 16) | ((c as bv32) << 8) | (d as bv32)
  }

  lemma FedLow(s: bv32, c: Byte)
    requires s < 0x1000000
    ensures Fed(s, c) == Appended(s, c)
  {
    NoEntry(s);
    XorZero(Appended(s, c));
  }

  lemma NoEntry(s: bv32)
    requires s < 0x1000000
    ensures Entry(TopByte(s)) == 0
  {
    assert TopByte(s) == 0;
    ZeroEntry();
  }

  lemma ZeroEntry()
    ensures Entry(0) == 0
  {}

  /** Until four bytes have gone in, nothing falls out at the top. */
  lemma FourBytes(a: Byte, b: Byte, c: Byte, d: Byte)
    ensures Crc(0, [a, b, c, d]) == Word(a, b, c, d)
  {
    hide Fed, Word, Appended;
    var s1 := Fed(0, a);
    var s2 := Fed(s1, b);
    var s3 := Fed(s2, c);
    assert Crc(0, [a, b, c, d]) == Crc(s1, [b, c, d]) by { assert [a, b, c, d][1..] == [b, c, d]; }
    assert Crc(s1, [b, c, d]) == Crc(s2, [c, d]) by { assert [b, c, d][1..] == [c, d]; }
    assert Crc(s2, [c, d]) == Crc(s3, [d]) by { assert [c, d][1..] == [d]; }
    assert Crc(s3, [d]) == Fed(s3, d) by { assert [d][1..] == []; }
    FourAppended(a, b, c, d);
    FedLow(0, a);
    FedLow(Appended(0, a), b);
    FedLow(Appended(Appended(0, a), b), c);
    FedLow(Appended(Appended(Appended(0, a), b), c), d);
  }

  lemma FourAppended(a: Byte, b: Byte, c: Byte, d: Byte)
    ensures Appended(0, a) < 0x1000000 && Appended(Appended(0, a), b) < 0x1000000 && Appended(Appended(Appended(0, a), b), c) < 0x1000000
    ensures Appended(Appended(Appended(Appended(0, a), b), c), d) == Word(a, b, c, d)
  {}

  lemma WordZero(a: Byte, b: Byte, c: Byte, d: Byte)
    ensures Word(a, b, c, d) == 0 <==> a == 0 && b == 0 && c == 0 && d == 0
  {}

  /** Up to four bytes, not all zero, never have checksum zero. */
  lemma ShortNonzero(w: seq<Byte>)
    requires |w| <= 4
    ensures Crc(0, w) == 0 <==> forall k :: 0 <= k < |w| ==> w[k] == 0
  {
    hide Crc, Word, Zeros;
    var z := Zeros(4 - |w|);
    var v := z + w;
    assert v + Zeros(0) == v;
    OnlyTheWindow(4 - |w|, w, 0);
    assert v == [v[0], v[1], v[2], v[3]];
    FourBytes(v[0], v[1], v[2], v[3]);
    WordZero(v[0], v[1], v[2], v[3]);
    forall k | 0 <= k < |w|
      ensures w[k] == v[4 - |w| + k]
    {}
    forall k | 0 <= k < 4 - |w|
      ensures v[k] == 0
    {}
  }

  /** Any change confined to four neighbouring bytes is noticed, whatever the length of the message. */
  lemma BurstNoticed(a: seq<Byte>, b: seq<Byte>, i: nat, n: nat)
    requires DifferInside(a, b, i, n) && n <= 4
    ensures Crc(0, a) == Crc(0, b) <==> a == b
  {
    hide Crc, XorSeq, XorByte;
    var v, u := a[i..i + n], b[i..i + n];
    UnnoticedIff(a, b, i, n);
    ShortNonzero(XorSeq(v, u));
    if Crc(0, a) == Crc(0, b) {
      forall k | 0 <= k < n
        ensures v[k] == u[k]
      {
        assert XorSeq(v, u)[k] == 0;
        ZeroMeansSame(v[k], u[k]);
      }
      assert v == u;
      assert a == a[..i] + v + a[i + n..] && b == b[..i] + u + b[i + n..];
    }
  }

  lemma FedTop(a: Byte, b: Byte, c: Byte, d: Byte, e: Byte)
    ensures Fed(Word(a, b, c, d), e) == Xor(Word(b, c, d, e), Entry(a))
  {
    hide Entry, Xor, Word, Appended, TopByte;
    WordShifted(a, b, c, d, e);
    WordTop(a, b, c, d);
  }

  lemma WordShifted(a: Byte, b: Byte, c: Byte, d: Byte, e: Byte)
    ensures Appended(Word(a, b, c, d), e) == Word(b, c, d, e)
  {}

  lemma WordTop(a: Byte, b: Byte, c: Byte, d: Byte)
    ensures TopByte(Word(a, b, c, d)) == a
  {}

  /** The bound is exact. A change confined to five bytes goes unnoticed exactly when the last four differences are the table
      entry of the first. */
  lemma FiveByteBurst(a: seq<Byte>, b: seq<Byte>, i: nat)
    requires DifferInside(a, b, i, 5)
    ensures var d := XorSeq(a[i..i + 5], b[i..i + 5]);
      Crc(0, a) == Crc(0, b) <==> Word(d[1], d[2], d[3], d[4]) == Entry(d[0])
  {
    hide Crc, XorSeq, Fed, Word, Entry, Xor;
    var d := XorSeq(a[i..i + 5], b[i..i + 5]);
    UnnoticedIff(a, b, i, 5);
    assert d == [d[0], d[1], d[2], d[3]] + [d[4]];
    CrcAppend(0, [d[0], d[1], d[2], d[3]], [d[4]]);
    FourBytes(d[0], d[1], d[2], d[3]);
    CrcOne(Word(d[0], d[1], d[2], d[3]), d[4]);
    FedTop(d[0], d[1], d[2], d[3], d[4]);
    XorSame(Word(d[1], d[2], d[3], d[4]), Entry(d[0]));
  }

  lemma CrcOne(s: bv32, c: Byte)
    ensures Crc(s, [c]) == Fed(s, c)
  {
    hide Fed;
    assert [c][1..] == [];
  }

  /** A message of five bytes whose change goes unnoticed. */
  lemma UnnoticedExample()
    ensures Crc(0, [0, 0, 0, 0, 0]) == Crc(0, [1, 0x77, 0x07, 0x30, 0x96])
  {
    hide Crc;
    var a, b: seq<Byte> := [0, 0, 0, 0, 0], [1, 0x77, 0x07, 0x30, 0x96];
    assert a[..0] == b[..0] && a[5..] == b[5..] && a[0..5] == a && b[0..5] == b;
    FiveByteBurst(a, b, 0);
    EntrySummed(1);
  }
}
