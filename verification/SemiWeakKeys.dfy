/** The keys whose schedules are each other's reverse: the semi-weak pairs, the weak keys, and no others. */
module SemiWeakKeys {
  import opened Bits
  import opened DesKeySpec
  import opened Feistel
  import opened StandardDes
  import opened StandardDesCipher
  import opened FastDesKeys
  import opened KeyParity

  // ----- the two halves of a key

  /** Bit `m` of the first or the second half, before any turn. */
  predicate HalfBitOf(key: Block, second: bool, m: bv8)
    requires m < 28
  {
    KeyBit(key, if second then PermD(m) else PermC(m))
  }

  function InHalf(second: bool, q: bv8): (p: bv8)
    requires q < 28
    ensures p < 56 && (p < 28 <==> !second)
  {
    if second then q + 28 else q
  }

  lemma HalvesBitIs(key: Block, n: nat, second: bool, q: bv8)
    requires n <= 16 && q < 28
    ensures HalvesBit(key, n, InHalf(second, q)) == HalfBitOf(key, second, Turned(q, TotalShift(n)))
  {
    hide KeyBit, PermC, PermD, Turned, TotalShift;
    assert second ==> InHalf(second, q) - 28 == q;
  }

  /** `a` at the even places, `b` at the odd ones. */
  function Nth(m: bv8, a: bool, b: bool): bool {
    if m & 1 == 0 then a else b
  }

  /** Both halves alternate between two values. */
  ghost predicate Alternates(key: Block, c0: bool, c1: bool, d0: bool, d1: bool) {
    forall m: bv8 :: m < 28 ==> HalfBitOf(key, false, m) == Nth(m, c0, c1) && HalfBitOf(key, true, m) == Nth(m, d0, d1)
  }

  // ----- the sixteen keys

  /** Bytes 0 to 3, with odd parity: the first three bits go to the first half. */
  function Front(c: bool, d: bool): Byte {
    if c then (if d then 0xfe else 0xe0) else (if d then 0x1f else 0x01)
  }

  /** Bytes 4 to 7, with odd parity: here the first four bits do. */
  function Back(c: bool, d: bool): Byte {
    if c then (if d then 0xfe else 0xf1) else (if d then 0x0e else 0x01)
  }

  function KeyWith(c0: bool, c1: bool, d0: bool, d1: bool): Block {
    [Front(c1, d1), Front(c0, d0), Front(c1, d1), Front(c0, d0), Back(c1, d1), Back(c0, d0), Back(c1, d1), Back(c0, d0)]
  }

  lemma ByteOfKeyWith(c0: bool, c1: bool, d0: bool, d1: bool, k: bv8)
    requires k < 8
    ensures ByteAt(KeyWith(c0, c1, d0, d1), k) ==
      var c, d := Nth(k, c1, c0), Nth(k, d1, d0); if k < 4 then Front(c, d) else Back(c, d)
  {
    hide Front, Back;
  }

  lemma BitsOfFront(c: bool, d: bool, i: bv8)
    requires i < 7
    ensures ByteBit(Front(c, d), i) == if i < 3 then c else d
    ensures ByteBit(Back(c, d), i) == if i < 4 then c else d
  {}

  /** Where the permuted choice looks: the bytes from the last to the first, again and again. */
  lemma PlacesC(m: bv8)
    requires m < 28
    ensures var b := PermC(m); b & 7 < 7 && b >> 3 < 8 && (b >> 3) & 1 != m & 1 && (b & 7 < 3 || (b & 7 == 3 && b >> 3 >= 4))
  {}

  lemma PlacesD(m: bv8)
    requires m < 28
    ensures var b := PermD(m); b & 7 < 7 && b >> 3 < 8 && (b >> 3) & 1 != m & 1 && (b & 7 > 3 || (b & 7 == 3 && b >> 3 < 4))
  {}

  lemma OtherNth(m: bv8, k: bv8, a: bool, b: bool)
    requires k & 1 != m & 1
    ensures Nth(k, b, a) == Nth(m, a, b)
  {}

  lemma KeyWithAlternates(c0: bool, c1: bool, d0: bool, d1: bool)
    ensures Alternates(KeyWith(c0, c1, d0, d1), c0, c1, d0, d1)
  {
    hide PermC, PermD, Nth, KeyWith, ByteAt, ByteBit, Front, Back;
    var key := KeyWith(c0, c1, d0, d1);
    forall m: bv8 | m < 28
      ensures HalfBitOf(key, false, m) == Nth(m, c0, c1) && HalfBitOf(key, true, m) == Nth(m, d0, d1)
    {
      PlacesC(m);
      PlacesD(m);
      BitOfKeyWith(c0, c1, d0, d1, m, PermC(m));
      BitOfKeyWith(c0, c1, d0, d1, m, PermD(m));
    }
  }

  lemma BitOfKeyWith(c0: bool, c1: bool, d0: bool, d1: bool, m: bv8, b: bv8)
    requires b < 64 && b & 7 < 7 && b >> 3 < 8 && (b >> 3) & 1 != m & 1
    ensures KeyBit(KeyWith(c0, c1, d0, d1), b) ==
      if b & 7 < 3 || (b & 7 == 3 && b >> 3 >= 4) then Nth(m, c0, c1) else Nth(m, d0, d1)
  {
    hide Nth, KeyWith, ByteAt, ByteBit, Front, Back;
    var k := b >> 3;
    ByteOfKeyWith(c0, c1, d0, d1, k);
    BitsOfFront(Nth(k, c1, c0), Nth(k, d1, d0), b & 7);
    OtherNth(m, k, c0, c1);
    OtherNth(m, k, d0, d1);
  }

  // ----- parity bits do not matter, all others do

  lemma SameHalfBit(k1: Block, k2: Block, second: bool, m: bv8)
    requires SameButParity(k1, k2) && m < 28
    ensures HalfBitOf(k1, second, m) == HalfBitOf(k2, second, m)
  {
    hide SameButParity, KeyBit, PermC, PermD, Pc1;
    Pc1There(m);
    SameKeyBit(k1, k2, if second then PermD(m) else PermC(m));
  }

  lemma AlternatesToo(k1: Block, k2: Block, c0: bool, c1: bool, d0: bool, d1: bool)
    requires SameButParity(k1, k2) && Alternates(k2, c0, c1, d0, d1)
    ensures Alternates(k1, c0, c1, d0, d1)
  {
    hide SameButParity, HalfBitOf, Nth;
    forall m: bv8 | m < 28
      ensures HalfBitOf(k1, false, m) == Nth(m, c0, c1) && HalfBitOf(k1, true, m) == Nth(m, d0, d1)
    {
      SameHalfBit(k1, k2, false, m);
      SameHalfBit(k1, k2, true, m);
    }
  }

  /** Which half a bit of the round key comes from, and where it stood before the turn. */
  lemma RoundBitIs(key: Block, n: nat, j: bv8)
    requires n < 16 && j < 48
    ensures var q := Compress(j);
      RoundBit(key, n, j) == if q < 28 then HalfBitOf(key, false, Turned(q, TotalShift(n + 1))) else HalfBitOf(key, true, Turned(q - 28, TotalShift(n + 1)))
  {
    hide KeyBit, PermC, PermD, Turned, Compress, TotalShift;
  }

  lemma SameAlternation(k1: Block, k2: Block, c0: bool, c1: bool, d0: bool, d1: bool)
    requires Alternates(k1, c0, c1, d0, d1) && Alternates(k2, c0, c1, d0, d1)
    ensures SameButParity(k1, k2)
  {
    hide SameButParity, RoundBit, HalfBitOf, Nth, Compress, Turned, TotalShift;
    forall n: nat, j: bv8 | n < 2 && j < 48
      ensures RoundBit(k1, n, j) == RoundBit(k2, n, j)
    {
      RoundBitIs(k1, n, j);
      RoundBitIs(k2, n, j);
    }
    SeenKey(k1, k2);
  }

  // ----- alternating keys with the values exchanged have reversed schedules

  /** Round `n` from the front and from the back: an odd distance. */
  lemma OppositeTurns(n: nat, q: bv8)
    requires n < 16 && q < 28
    ensures Turned(q, TotalShift(n + 1)) & 1 != Turned(q, TotalShift(16 - n)) & 1
  {
    assert TotalShift(n + 1) & 1 != TotalShift(16 - n) & 1;
    TurnedParity(q, TotalShift(n + 1));
    TurnedParity(q, TotalShift(16 - n));
  }

  lemma TurnedParity(q: bv8, t: bv8)
    requires q < 28 && t <= 28
    ensures Turned(q, t) & 1 == (q & 1) ^ (t & 1)
  {}

  /** The key for round `n` of one is the key for round `15 - n` of the other. */
  ghost predicate Mirrored(k1: Block, k2: Block) {
    forall n: nat, j: bv8 :: n < 16 && j < 48 ==> RoundBit(k1, n, j) == RoundBit(k2, 15 - n, j)
  }

  lemma AlternatingMirrored(k1: Block, k2: Block, c0: bool, c1: bool, d0: bool, d1: bool)
    requires Alternates(k1, c0, c1, d0, d1) && Alternates(k2, c1, c0, d1, d0)
    ensures Mirrored(k1, k2)
  {
    hide RoundBit, HalfBitOf, Nth, Compress, Turned, TotalShift;
    forall n: nat, j: bv8 | n < 16 && j < 48
      ensures RoundBit(k1, n, j) == RoundBit(k2, 15 - n, j)
    {
      RoundBitIs(k1, n, j);
      RoundBitIs(k2, 15 - n, j);
      var q := Compress(j);
      var p := if q < 28 then q else q - 28;
      OppositeTurns(n, p);
      OtherNth(Turned(p, TotalShift(n + 1)), Turned(p, TotalShift(16 - n)), c0, c1);
      OtherNth(Turned(p, TotalShift(n + 1)), Turned(p, TotalShift(16 - n)), d0, d1);
    }
  }

  // ----- only they do

  /** What round `n` shows of place `q` of a half, provided the compression keeps it. */
  lemma Shown(k1: Block, k2: Block, second: bool, n: nat, q: bv8)
    requires Mirrored(k1, k2) && n < 16 && q < 28 && Compressed(InHalf(second, q)) < 48
    ensures HalfBitOf(k1, second, Turned(q, TotalShift(n + 1))) == HalfBitOf(k2, second, Turned(q, TotalShift(16 - n)))
  {
    hide Compress, Compressed, HalfBitOf, HalvesBit, Turned, TotalShift;
    var p := InHalf(second, q);
    CompressedThere(p);
    HalvesBitIs(k1, n + 1, second, q);
    HalvesBitIs(k2, 16 - n, second, q);
    assert RoundBit(k1, n, Compressed(p)) == RoundBit(k2, 15 - n, Compressed(p));
  }

  /** `s` places back. */
  function Backed(x: bv8, s: bv8): (r: bv8)
    requires x < 28 && s <= 28
    ensures r < 28
  {
    if x >= s then x - s else x + 28 - s
  }

  /** One of three pairs of rounds keeps both places. */
  lemma KeptPair(second: bool, x: bv8)
    requires x < 28
    ensures (Compressed(InHalf(second, Backed(x, 1))) < 48 && Compressed(InHalf(second, x)) < 48)
      || (Compressed(InHalf(second, Backed(x, 4))) < 48 && Compressed(InHalf(second, Backed(x, 17))) < 48)
      || (Compressed(InHalf(second, Backed(x, 6))) < 48 && Compressed(InHalf(second, Backed(x, 19))) < 48)
  {}

  /** Where those rounds take them from: in one key two places apart, in the other from the same place. */
  lemma TurnsMeet(x: bv8)
    requires x < 28
    ensures Turned(Backed(x, 1), 1) == x && Turned(Backed(x, 1), 28) == Turned(x, 27)
    ensures Turned(Backed(x, 4), 4) == x && Turned(Backed(x, 17), 19) == Turned(x, 2) && Turned(Backed(x, 4), 25) == Turned(Backed(x, 17), 10)
    ensures Turned(Backed(x, 6), 6) == x && Turned(Backed(x, 19), 21) == Turned(x, 2) && Turned(Backed(x, 6), 23) == Turned(Backed(x, 19), 8)
  {}

  lemma TwoApart(k1: Block, k2: Block, second: bool, x: bv8)
    requires Mirrored(k1, k2) && x < 28
    ensures HalfBitOf(k1, second, x) == HalfBitOf(k1, second, Turned(x, 2))
  {
    hide Mirrored, Compressed, HalfBitOf, Turned, Backed, InHalf;
    KeptPair(second, x);
    TurnsMeet(x);
    if Compressed(InHalf(second, Backed(x, 1))) < 48 && Compressed(InHalf(second, x)) < 48 {
      Shown(k1, k2, second, 0, Backed(x, 1));
      Shown(k1, k2, second, 1, x);
    } else if Compressed(InHalf(second, Backed(x, 4))) < 48 && Compressed(InHalf(second, Backed(x, 17))) < 48 {
      Shown(k1, k2, second, 2, Backed(x, 4));
      Shown(k1, k2, second, 10, Backed(x, 17));
    } else {
      Shown(k1, k2, second, 3, Backed(x, 6));
      Shown(k1, k2, second, 11, Backed(x, 19));
    }
  }

  lemma TwoBack(m: bv8)
    requires 2 <= m < 28
    ensures Turned(m - 2, 2) == m && (m - 2) & 1 == m & 1
  {}

  lemma {:induction false} HalfAlternates(k1: Block, k2: Block, second: bool, m: bv8)
    requires Mirrored(k1, k2) && m < 28
    ensures HalfBitOf(k1, second, m) == Nth(m, HalfBitOf(k1, second, 0), HalfBitOf(k1, second, 1))
    decreases m
  {
    hide Mirrored, HalfBitOf, Turned;
    if m >= 2 {
      TwoBack(m);
      TwoApart(k1, k2, second, m - 2);
      HalfAlternates(k1, k2, second, m - 2);
    }
  }

  lemma MirroredBack(k1: Block, k2: Block)
    requires Mirrored(k1, k2)
    ensures Mirrored(k2, k1)
  {
    hide RoundBit;
    forall n: nat, j: bv8 | n < 16 && j < 48
      ensures RoundBit(k2, n, j) == RoundBit(k1, 15 - n, j)
    {
      assert RoundBit(k1, 15 - n, j) == RoundBit(k2, 15 - (15 - n), j);
    }
  }

  /** The values are exchanged. */
  lemma Exchanged(k1: Block, k2: Block, second: bool)
    requires Mirrored(k1, k2)
    ensures HalfBitOf(k1, second, 1) == HalfBitOf(k2, second, 0) && HalfBitOf(k1, second, 0) == HalfBitOf(k2, second, 1)
  {
    hide Mirrored, HalfBitOf;
    assert Compressed(InHalf(second, 0)) < 48 && Compressed(InHalf(second, 27)) < 48;
    Shown(k1, k2, second, 0, 0);
    Shown(k1, k2, second, 0, 27);
    MirroredBack(k1, k2);
    HalfAlternates(k2, k1, second, 27);
  }

  lemma MirroredAlternate(k1: Block, k2: Block)
    requires Mirrored(k1, k2)
    ensures var c0, c1, d0, d1 := HalfBitOf(k1, false, 0), HalfBitOf(k1, false, 1), HalfBitOf(k1, true, 0), HalfBitOf(k1, true, 1);
      Alternates(k1, c0, c1, d0, d1) && Alternates(k2, c1, c0, d1, d0)
  {
    hide Mirrored, HalfBitOf, Nth;
    MirroredBack(k1, k2);
    Exchanged(k1, k2, false);
    Exchanged(k1, k2, true);
    forall m: bv8 | m < 28
      ensures HalfBitOf(k1, false, m) == Nth(m, HalfBitOf(k1, false, 0), HalfBitOf(k1, false, 1))
      ensures HalfBitOf(k1, true, m) == Nth(m, HalfBitOf(k1, true, 0), HalfBitOf(k1, true, 1))
      ensures HalfBitOf(k2, false, m) == Nth(m, HalfBitOf(k2, false, 0), HalfBitOf(k2, false, 1))
      ensures HalfBitOf(k2, true, m) == Nth(m, HalfBitOf(k2, true, 0), HalfBitOf(k2, true, 1))
    {
      HalfAlternates(k1, k2, false, m);
      HalfAlternates(k1, k2, true, m);
      HalfAlternates(k2, k1, false, m);
      HalfAlternates(k2, k1, true, m);
    }
  }

  // ----- the schedules

  lemma MirroredSchedules(k1: Block, k2: Block)
    ensures ScheduleFor(k2, ENCRYPT) == Reversed(ScheduleFor(k1, ENCRYPT)) <==> Mirrored(k1, k2)
  {
    hide KeyOfRound, Mirrored;
    var s, r := ScheduleFor(k2, ENCRYPT), Reversed(ScheduleFor(k1, ENCRYPT));
    if s == r {
      forall n | 0 <= n < 16
        ensures KeyOfRound(k1, n) == KeyOfRound(k2, 15 - n)
      {
        assert s[15 - n] == r[15 - n];
      }
      SameRounds16(k1, k2);
    }
    if Mirrored(k1, k2) {
      forall n | 0 <= n < 16
        ensures s[n] == r[n]
      {
        MirroredKey(k1, k2, 15 - n);
      }
    }
  }

  lemma MirroredKey(k1: Block, k2: Block, n: nat)
    requires Mirrored(k1, k2) && n < 16
    ensures KeyOfRound(k1, n) == KeyOfRound(k2, 15 - n)
  {
    hide RoundBit, BytesOf;
    var f, g := RoundBits(k1, n), RoundBits(k2, 15 - n);
    forall j: bv8 | j < 48
      ensures f(j) == g(j)
    {
      assert RoundBit(k1, n, j) == RoundBit(k2, 15 - n, j);
    }
    SameBits(f, g);
  }

  lemma SameRounds16(k1: Block, k2: Block)
    requires forall n :: 0 <= n < 16 ==> KeyOfRound(k1, n) == KeyOfRound(k2, 15 - n)
    ensures Mirrored(k1, k2)
  {
    hide RoundBit, BytesOf, KeyOfRound;
    forall n: nat, j: bv8 | n < 16 && j < 48
      ensures RoundBit(k1, n, j) == RoundBit(k2, 15 - n, j)
    {
      ShownByKey(k1, k2, n, j);
    }
  }

  lemma ShownByKey(k1: Block, k2: Block, n: nat, j: bv8)
    requires n < 16 && KeyOfRound(k1, n) == KeyOfRound(k2, 15 - n) && j < 48
    ensures RoundBit(k1, n, j) == RoundBit(k2, 15 - n, j)
  {
    hide RoundBit, BytesOf;
    var f, g := RoundBits(k1, n), RoundBits(k2, 15 - n);
    SameBytesSameBit(f, g, j);
    assert f(j) == RoundBit(k1, n, j) && g(j) == RoundBit(k2, 15 - n, j);
  }

  /** Up to parity, the keys are one of the sixteen and the one with the values exchanged. */
  ghost predicate DualKeys(k1: Block, k2: Block) {
    exists c0, c1, d0, d1 :: SameButParity(k1, KeyWith(c0, c1, d0, d1)) && SameButParity(k2, KeyWith(c1, c0, d1, d0))
  }

  /** Exactly these pairs have schedules that are each other's reverse. */
  lemma ReversedIff(k1: Block, k2: Block)
    ensures ScheduleFor(k2, ENCRYPT) == Reversed(ScheduleFor(k1, ENCRYPT)) <==> DualKeys(k1, k2)
  {
    hide Alternates, Mirrored, KeyWith, SameButParity, ScheduleFor, HalfBitOf;
    MirroredSchedules(k1, k2);
    if DualKeys(k1, k2) {
      var c0, c1, d0, d1 :| SameButParity(k1, KeyWith(c0, c1, d0, d1)) && SameButParity(k2, KeyWith(c1, c0, d1, d0));
      KeyWithAlternates(c0, c1, d0, d1);
      KeyWithAlternates(c1, c0, d1, d0);
      AlternatesToo(k1, KeyWith(c0, c1, d0, d1), c0, c1, d0, d1);
      AlternatesToo(k2, KeyWith(c1, c0, d1, d0), c1, c0, d1, d0);
      AlternatingMirrored(k1, k2, c0, c1, d0, d1);
    }
    if Mirrored(k1, k2) {
      MirroredAlternate(k1, k2);
      var c0, c1, d0, d1 := HalfBitOf(k1, false, 0), HalfBitOf(k1, false, 1), HalfBitOf(k1, true, 0), HalfBitOf(k1, true, 1);
      KeyWithAlternates(c0, c1, d0, d1);
      KeyWithAlternates(c1, c0, d1, d0);
      SameAlternation(k1, KeyWith(c0, c1, d0, d1), c0, c1, d0, d1);
      SameAlternation(k2, KeyWith(c1, c0, d1, d0), c1, c0, d1, d0);
    }
  }

  // ----- the published pairs

  /** The semi-weak pairs and the weak keys, each in one order. */
  predicate Published(k1: Block, k2: Block) {
    || (k1 == [0x01, 0xfe, 0x01, 0xfe, 0x01, 0xfe, 0x01, 0xfe] && k2 == [0xfe, 0x01, 0xfe, 0x01, 0xfe, 0x01, 0xfe, 0x01])
    || (k1 == [0x1f, 0xe0, 0x1f, 0xe0, 0x0e, 0xf1, 0x0e, 0xf1] && k2 == [0xe0, 0x1f, 0xe0, 0x1f, 0xf1, 0x0e, 0xf1, 0x0e])
    || (k1 == [0x01, 0xe0, 0x01, 0xe0, 0x01, 0xf1, 0x01, 0xf1] && k2 == [0xe0, 0x01, 0xe0, 0x01, 0xf1, 0x01, 0xf1, 0x01])
    || (k1 == [0x1f, 0xfe, 0x1f, 0xfe, 0x0e, 0xfe, 0x0e, 0xfe] && k2 == [0xfe, 0x1f, 0xfe, 0x1f, 0xfe, 0x0e, 0xfe, 0x0e])
    || (k1 == [0x01, 0x1f, 0x01, 0x1f, 0x01, 0x0e, 0x01, 0x0e] && k2 == [0x1f, 0x01, 0x1f, 0x01, 0x0e, 0x01, 0x0e, 0x01])
    || (k1 == [0xe0, 0xfe, 0xe0, 0xfe, 0xf1, 0xfe, 0xf1, 0xfe] && k2 == [0xfe, 0xe0, 0xfe, 0xe0, 0xfe, 0xf1, 0xfe, 0xf1])
    || (k1 == k2 == [0x01, 0x01, 0x01, 0x01, 0x01, 0x01, 0x01, 0x01])
    || (k1 == k2 == [0x1f, 0x1f, 0x1f, 0x1f, 0x0e, 0x0e, 0x0e, 0x0e])
    || (k1 == k2 == [0xe0, 0xe0, 0xe0, 0xe0, 0xf1, 0xf1, 0xf1, 0xf1])
    || (k1 == k2 == [0xfe, 0xfe, 0xfe, 0xfe, 0xfe, 0xfe, 0xfe, 0xfe])
  }

  /** The sixteen keys are the published ones, and so are the pairs. */
  lemma DualIsPublished(c0: bool, c1: bool, d0: bool, d1: bool)
    ensures var k1, k2 := KeyWith(c0, c1, d0, d1), KeyWith(c1, c0, d1, d0); Published(k1, k2) || Published(k2, k1)
  {}

  lemma PublishedIsDual(k1: Block, k2: Block)
    requires Published(k1, k2)
    ensures exists c0, c1, d0, d1 :: k1 == KeyWith(c0, c1, d0, d1) && k2 == KeyWith(c1, c0, d1, d0)
  {
    var c0, c1, d0, d1 := k1[1] >= 0xe0, k1[0] >= 0xe0, k1[1] & 2 != 0, k1[0] & 2 != 0;
    assert k1 == KeyWith(c0, c1, d0, d1) && k2 == KeyWith(c1, c0, d1, d0);
  }

  /** Enciphering with both keys of a published pair, one after the other, is no enciphering at all. */
  lemma PublishedUndo(k1: Block, k2: Block, b: Block)
    requires Published(k1, k2)
    ensures Cipher(Cipher(b, ScheduleFor(k1, ENCRYPT)), ScheduleFor(k2, ENCRYPT)) == b
    ensures Cipher(Cipher(b, ScheduleFor(k2, ENCRYPT)), ScheduleFor(k1, ENCRYPT)) == b
  {
    hide Cipher, ScheduleFor, KeyWith, Published, Mirrored, SameButParity;
    PublishedIsDual(k1, k2);
    SameButParityItself(k1);
    SameButParityItself(k2);
    ReversedIff(k1, k2);
    ReversedIff(k2, k1);
    CipherUndone(b, ScheduleFor(k1, ENCRYPT));
    CipherUndone(b, ScheduleFor(k2, ENCRYPT));
  }

  lemma SameButParityItself(k: Block)
    ensures SameButParity(k, k)
  {}
}
