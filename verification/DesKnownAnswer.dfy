/** A published worked example, 133457799BBCDFF1 on 0123456789ABCDEF: every round key, every round, the answer. It ties down
    the tables, which no law about all keys and blocks does alone. */
module DesKnownAnswer {
  import opened Bits
  import opened DesKeySpec
  import opened StandardDesSpec
  import opened StandardDes
  import opened StandardDesCipher
  import opened Feistel

  const KEY: Block := [0x13, 0x34, 0x57, 0x79, 0x9b, 0xbc, 0xdf, 0xf1]
  const BLOCK: Block := [0x01, 0x23, 0x45, 0x67, 0x89, 0xab, 0xcd, 0xef]

  /** The round keys. */
  function KeyNo(n: nat): RoundKey {
    match n
    case 0 => [0x1b, 0x02, 0xef, 0xfc, 0x70, 0x72] case 1 => [0x79, 0xae, 0xd9, 0xdb, 0xc9, 0xe5]
    case 2 => [0x55, 0xfc, 0x8a, 0x42, 0xcf, 0x99] case 3 => [0x72, 0xad, 0xd6, 0xdb, 0x35, 0x1d]
    case 4 => [0x7c, 0xec, 0x07, 0xeb, 0x53, 0xa8] case 5 => [0x63, 0xa5, 0x3e, 0x50, 0x7b, 0x2f]
    case 6 => [0xec, 0x84, 0xb7, 0xf6, 0x18, 0xbc] case 7 => [0xf7, 0x8a, 0x3a, 0xc1, 0x3b, 0xfb]
    case 8 => [0xe0, 0xdb, 0xeb, 0xed, 0xe7, 0x81] case 9 => [0xb1, 0xf3, 0x47, 0xba, 0x46, 0x4f]
    case 10 => [0x21, 0x5f, 0xd3, 0xde, 0xd3, 0x86] case 11 => [0x75, 0x71, 0xf5, 0x94, 0x67, 0xe9]
    case 12 => [0x97, 0xc5, 0xd1, 0xfa, 0xba, 0x41] case 13 => [0x5f, 0x43, 0xb7, 0xf2, 0xe7, 0x3a]
    case 14 => [0xbf, 0x91, 0x8d, 0x3d, 0x3f, 0x0a] case _ => [0xcb, 0x3d, 0x8b, 0x0e, 0x17, 0xf5]
  }

  /** The halves after `n` turns, as the bit-level engine keeps them. */
  function HalfC(n: nat): bv32 {
    match n
    case 0 => 0xf0ccaaf0 case 1 => 0xe19955f0 case 2 => 0xc332abf0 case 3 => 0x0ccaaff0
    case 4 => 0x332abfc0 case 5 => 0xccaaff00 case 6 => 0x32abfc30 case 7 => 0xcaaff0c0
    case 8 => 0x2abfc330 case 9 => 0x557f8660 case 10 => 0x55fe1990 case 11 => 0x57f86650
    case 12 => 0x5fe19950 case 13 => 0x7f866550 case 14 => 0xfe199550 case 15 => 0xf8665570
    case _ => 0xf0ccaaf0
  }

  function HalfD(n: nat): bv32 {
    match n
    case 0 => 0x556678f0 case 1 => 0xaaccf1e0 case 2 => 0x5599e3d0 case 3 => 0x56678f50
    case 4 => 0x599e3d50 case 5 => 0x6678f550 case 6 => 0x99e3d550 case 7 => 0x678f5560
    case 8 => 0x9e3d5590 case 9 => 0x3c7aab30 case 10 => 0xf1eaacc0 case 11 => 0xc7aab330
    case 12 => 0x1eaaccf0 case 13 => 0x7aab33c0 case 14 => 0xeaaccf10 case 15 => 0xaab33c70
    case _ => 0x556678f0
  }

  /** Both sides after `n` rounds are words `n` and `n + 1`. */
  function Side(n: nat): bv32 {
    match n
    case 0 => 0xcc00ccff case 1 => 0xf0aaf0aa case 2 => 0xef4a6544 case 3 => 0xcc017709
    case 4 => 0xa25c0bf4 case 5 => 0x77220045 case 6 => 0x8a4fa637 case 7 => 0xe967cd69
    case 8 => 0x064aba10 case 9 => 0xd5694b90 case 10 => 0x247cc67a case 11 => 0xb7d5d7b2
    case 12 => 0xc5783c78 case 13 => 0x75bd1858 case 14 => 0x18c3155a case 15 => 0xc28c960d
    case 16 => 0x43423234 case _ => 0x0a4cd995
  }

  // ----- the schedule

  lemma HalvesFirst(c: bv32, d: bv32)
    requires c == 0xf0ccaaf0 && d == 0x556678f0
    ensures HalvesAt(c, d, [0x13, 0x34, 0x57, 0x79, 0x9b, 0xbc, 0xdf, 0xf1], 0)
  {}

  lemma HalvesNext(n: nat)
    requires n < 16
    ensures TurnHigh(HalfC(n), RoundShift(n)) == HalfC(n + 1) && TurnHigh(HalfD(n), RoundShift(n)) == HalfD(n + 1)
  {}

  lemma {:induction false} HalvesNo(n: nat)
    requires n <= 16
    ensures HalvesAt(HalfC(n), HalfD(n), KEY, n)
  {
    hide HalvesAt, TurnHigh, RoundShift;
    if n == 0 {
      HalvesFirst(HalfC(0), HalfD(0));
    } else {
      HalvesNo(n - 1);
      HalvesNext(n - 1);
      HalvesTurn(HalfC(n - 1), HalfD(n - 1), KEY, n - 1);
    }
  }

  lemma Key0(c: bv32, d: bv32)
    requires c == 0xe19955f0 && d == 0xaaccf1e0
    ensures BytesOf(HalfBits(c, d)) == KeyNo(0)
  {}

  lemma Key1(c: bv32, d: bv32)
    requires c == 0xc332abf0 && d == 0x5599e3d0
    ensures BytesOf(HalfBits(c, d)) == KeyNo(1)
  {}

  lemma Key2(c: bv32, d: bv32)
    requires c == 0x0ccaaff0 && d == 0x56678f50
    ensures BytesOf(HalfBits(c, d)) == KeyNo(2)
  {}

  lemma Key3(c: bv32, d: bv32)
    requires c == 0x332abfc0 && d == 0x599e3d50
    ensures BytesOf(HalfBits(c, d)) == KeyNo(3)
  {}

  lemma Key4(c: bv32, d: bv32)
    requires c == 0xccaaff00 && d == 0x6678f550
    ensures BytesOf(HalfBits(c, d)) == KeyNo(4)
  {}

  lemma Key5(c: bv32, d: bv32)
    requires c == 0x32abfc30 && d == 0x99e3d550
    ensures BytesOf(HalfBits(c, d)) == KeyNo(5)
  {}

  lemma Key6(c: bv32, d: bv32)
    requires c == 0xcaaff0c0 && d == 0x678f5560
    ensures BytesOf(HalfBits(c, d)) == KeyNo(6)
  {}

  lemma Key7(c: bv32, d: bv32)
    requires c == 0x2abfc330 && d == 0x9e3d5590
    ensures BytesOf(HalfBits(c, d)) == KeyNo(7)
  {}

  lemma Key8(c: bv32, d: bv32)
    requires c == 0x557f8660 && d == 0x3c7aab30
    ensures BytesOf(HalfBits(c, d)) == KeyNo(8)
  {}

  lemma Key9(c: bv32, d: bv32)
    requires c == 0x55fe1990 && d == 0xf1eaacc0
    ensures BytesOf(HalfBits(c, d)) == KeyNo(9)
  {}

  lemma Key10(c: bv32, d: bv32)
    requires c == 0x57f86650 && d == 0xc7aab330
    ensures BytesOf(HalfBits(c, d)) == KeyNo(10)
  {}

  lemma Key11(c: bv32, d: bv32)
    requires c == 0x5fe19950 && d == 0x1eaaccf0
    ensures BytesOf(HalfBits(c, d)) == KeyNo(11)
  {}

  lemma Key12(c: bv32, d: bv32)
    requires c == 0x7f866550 && d == 0x7aab33c0
    ensures BytesOf(HalfBits(c, d)) == KeyNo(12)
  {}

  lemma Key13(c: bv32, d: bv32)
    requires c == 0xfe199550 && d == 0xeaaccf10
    ensures BytesOf(HalfBits(c, d)) == KeyNo(13)
  {}

  lemma Key14(c: bv32, d: bv32)
    requires c == 0xf8665570 && d == 0xaab33c70
    ensures BytesOf(HalfBits(c, d)) == KeyNo(14)
  {}

  lemma Key15(c: bv32, d: bv32)
    requires c == 0xf0ccaaf0 && d == 0x556678f0
    ensures BytesOf(HalfBits(c, d)) == KeyNo(15)
  {}

  lemma KeysFit(n: nat)
    requires n < 16
    ensures BytesOf(HalfBits(HalfC(n + 1), HalfD(n + 1))) == KeyNo(n)
  {
    hide BytesOf, HalfBits, KeyNo;
    match n
    case 0 => Key0(HalfC(1), HalfD(1)); case 1 => Key1(HalfC(2), HalfD(2));
    case 2 => Key2(HalfC(3), HalfD(3)); case 3 => Key3(HalfC(4), HalfD(4));
    case 4 => Key4(HalfC(5), HalfD(5)); case 5 => Key5(HalfC(6), HalfD(6));
    case 6 => Key6(HalfC(7), HalfD(7)); case 7 => Key7(HalfC(8), HalfD(8));
    case 8 => Key8(HalfC(9), HalfD(9)); case 9 => Key9(HalfC(10), HalfD(10));
    case 10 => Key10(HalfC(11), HalfD(11)); case 11 => Key11(HalfC(12), HalfD(12));
    case 12 => Key12(HalfC(13), HalfD(13)); case 13 => Key13(HalfC(14), HalfD(14));
    case 14 => Key14(HalfC(15), HalfD(15)); case _ => Key15(HalfC(16), HalfD(16));
  }

  /** The schedule, row by row. */
  lemma KnownSchedule(n: nat)
    requires n < 16
    ensures KeyOfRound(KEY, n) == KeyNo(n)
    ensures ScheduleFor(KEY, ENCRYPT)[n] == KeyNo(n) == ScheduleFor(KEY, DECRYPT)[15 - n]
  {
    hide KeyOfRound, KeyNo, HalvesAt, HalfC, HalfD, BytesOf, HalfBits;
    KeysFit(n);
    HalvesNo(n + 1);
    HalvesKey(HalfC(n + 1), HalfD(n + 1), KEY, n);
  }

  // ----- the rounds

  /** One round: the left side of `n + 1` rounds is the right side of `n`, so one word is new. */
  predicate RoundFits(n: nat) {
    Xor(Side(n), F(Side(n + 1), KeyNo(n))) == Side(n + 2)
  }

  lemma Round0()
    ensures Xor(0xcc00ccff, F(0xf0aaf0aa, [0x1b, 0x02, 0xef, 0xfc, 0x70, 0x72])) == 0xef4a6544
  {}

  lemma Round1()
    ensures Xor(0xf0aaf0aa, F(0xef4a6544, [0x79, 0xae, 0xd9, 0xdb, 0xc9, 0xe5])) == 0xcc017709
  {}

  lemma Round2()
    ensures Xor(0xef4a6544, F(0xcc017709, [0x55, 0xfc, 0x8a, 0x42, 0xcf, 0x99])) == 0xa25c0bf4
  {}

  lemma Round3()
    ensures Xor(0xcc017709, F(0xa25c0bf4, [0x72, 0xad, 0xd6, 0xdb, 0x35, 0x1d])) == 0x77220045
  {}

  lemma Round4()
    ensures Xor(0xa25c0bf4, F(0x77220045, [0x7c, 0xec, 0x07, 0xeb, 0x53, 0xa8])) == 0x8a4fa637
  {}

  lemma Round5()
    ensures Xor(0x77220045, F(0x8a4fa637, [0x63, 0xa5, 0x3e, 0x50, 0x7b, 0x2f])) == 0xe967cd69
  {}

  lemma Round6()
    ensures Xor(0x8a4fa637, F(0xe967cd69, [0xec, 0x84, 0xb7, 0xf6, 0x18, 0xbc])) == 0x064aba10
  {}

  lemma Round7()
    ensures Xor(0xe967cd69, F(0x064aba10, [0xf7, 0x8a, 0x3a, 0xc1, 0x3b, 0xfb])) == 0xd5694b90
  {}

  lemma Round8()
    ensures Xor(0x064aba10, F(0xd5694b90, [0xe0, 0xdb, 0xeb, 0xed, 0xe7, 0x81])) == 0x247cc67a
  {}

  lemma Round9()
    ensures Xor(0xd5694b90, F(0x247cc67a, [0xb1, 0xf3, 0x47, 0xba, 0x46, 0x4f])) == 0xb7d5d7b2
  {}

  lemma Round10()
    ensures Xor(0x247cc67a, F(0xb7d5d7b2, [0x21, 0x5f, 0xd3, 0xde, 0xd3, 0x86])) == 0xc5783c78
  {}

  lemma Round11()
    ensures Xor(0xb7d5d7b2, F(0xc5783c78, [0x75, 0x71, 0xf5, 0x94, 0x67, 0xe9])) == 0x75bd1858
  {}

  lemma Round12()
    ensures Xor(0xc5783c78, F(0x75bd1858, [0x97, 0xc5, 0xd1, 0xfa, 0xba, 0x41])) == 0x18c3155a
  {}

  lemma Round13()
    ensures Xor(0x75bd1858, F(0x18c3155a, [0x5f, 0x43, 0xb7, 0xf2, 0xe7, 0x3a])) == 0xc28c960d
  {}

  lemma Round14()
    ensures Xor(0x18c3155a, F(0xc28c960d, [0xbf, 0x91, 0x8d, 0x3d, 0x3f, 0x0a])) == 0x43423234
  {}

  lemma Round15()
    ensures Xor(0xc28c960d, F(0x43423234, [0xcb, 0x3d, 0x8b, 0x0e, 0x17, 0xf5])) == 0x0a4cd995
  {}

  lemma RoundsFit(n: nat)
    requires n < 16
    ensures RoundFits(n)
  {
    hide F, Xor;
    match n
    case 0 => Round0(); case 1 => Round1(); case 2 => Round2(); case 3 => Round3();
    case 4 => Round4(); case 5 => Round5(); case 6 => Round6(); case 7 => Round7();
    case 8 => Round8(); case 9 => Round9(); case 10 => Round10(); case 11 => Round11();
    case 12 => Round12(); case 13 => Round13(); case 14 => Round14(); case _ => Round15();
  }

  lemma RoundAfter(ks: seq<RoundKey>, n: nat, hi: bv32, lo: bv32)
    requires n < |ks|
    ensures var p := Rounds(F, ks[..n], hi, lo); Rounds(F, ks[..n + 1], hi, lo) == (p.1, Xor(p.0, F(p.1, ks[n])))
  {
    hide F;
    RoundsLast(F, ks[..n], ks[n], hi, lo);
    assert ks[..n + 1] == ks[..n] + [ks[n]];
  }

  lemma SidesStep(ks: seq<RoundKey>, n: nat)
    requires n < 16 && |ks| == 16 && ks[n] == KeyNo(n)
    requires Rounds(F, ks[..n], Side(0), Side(1)) == (Side(n), Side(n + 1))
    ensures Rounds(F, ks[..n + 1], Side(0), Side(1)) == (Side(n + 1), Side(n + 2))
  {
    hide F, KeyNo, Side, Rounds, Xor;
    RoundsFit(n);
    RoundAfter(ks, n, Side(0), Side(1));
  }

  lemma {:induction false} SidesNo(n: nat)
    requires n <= 16
    ensures Rounds(F, ScheduleFor(KEY, ENCRYPT)[..n], Side(0), Side(1)) == (Side(n), Side(n + 1))
  {
    hide F, KeyNo, Side, ScheduleFor, KeyOfRound;
    if n > 0 {
      SidesNo(n - 1);
      KnownSchedule(n - 1);
      SidesStep(ScheduleFor(KEY, ENCRYPT), n - 1);
    }
  }

  lemma Ends()
    ensures IpHi(BLOCK) == Side(0) && IpLo(BLOCK) == Side(1)
    ensures InvIp(Side(17), Side(16)) == [0x85, 0xe8, 0x13, 0x54, 0x0f, 0x0a, 0xb4, 0x05]
  {}

  lemma KnownAnswer()
    ensures Cipher(BLOCK, ScheduleFor(KEY, ENCRYPT)) == [0x85, 0xe8, 0x13, 0x54, 0x0f, 0x0a, 0xb4, 0x05]
  {
    hide F, Side, ScheduleFor, IpHi, IpLo, InvIp;
    var ks := ScheduleFor(KEY, ENCRYPT);
    SidesNo(16);
    assert ks[..16] == ks;
    Ends();
  }
}
