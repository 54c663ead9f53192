/** des_setkey: the key schedule of the table-driven engine (src/leo_des_crypto.c:26-118). */
module FastDesKeys {
  import opened Bits
  import opened DesKeySpec
  import opened StandardDes
  import opened FastDesSpec
  import opened FastRound

  // ----- permuted choice 1

  /** Bit `b` of the key counts as bit number `Index(b)` once the parity bits are skipped. */
  function Index(b: bv8): bv8 {
    b - (b >> 3)
  }

  function SourceOf(v: bv8): bv8
    requires v < 56
  {
    if v >= 28 then PermC(55 - v) else PermD(27 - v)
  }

  lemma Pc1There(m: bv8)
    requires m < 28
    ensures PermC(m) & 7 != 7 && Index(PermC(m)) < 56 && Pc1(Index(PermC(m))) == 55 - m
    ensures PermD(m) & 7 != 7 && Index(PermD(m)) < 56 && Pc1(Index(PermD(m))) == 27 - m
  {}

  lemma Pc1Back(n: bv8)
    requires n < 56
    ensures Index(SourceOf(Pc1(n))) == n
  {}

  lemma IndexInjective(a: bv8, b: bv8)
    requires a < 64 && b < 64 && a & 7 != 7 && b & 7 != 7
    ensures Index(a) == Index(b) <==> a == b
  {}

  /** Entry `v` of pc1 stands for place `m` of the first half, or of the second half. */
  predicate HitsC(v: bv8, m: bv8) {
    v >= 28 && v - 28 == 27 - m
  }

  predicate HitsD(v: bv8, m: bv8) {
    v < 28 && v == 27 - m
  }

  lemma Hits(v: bv8, m: bv8)
    requires v < 56 && m < 28
    ensures HitsC(v, m) <==> v == 55 - m
    ensures HitsD(v, m) <==> v == 27 - m
    ensures HitsC(v, m) ==> SourceOf(v) == PermC(m)
    ensures HitsD(v, m) ==> SourceOf(v) == PermD(m)
  {
    hide PermC, PermD;
    assert HitsC(v, m) ==> 55 - v == m;
    assert HitsD(v, m) ==> 27 - v == m;
  }

  /** The place pc1 gives to bit `b` is the one place where the standard looks for it. */
  lemma PlaceOfBit(b: bv8, m: bv8)
    requires b < 64 && b & 7 != 7 && Index(b) < 56 && m < 28
    ensures HitsC(Pc1(Index(b)), m) <==> PermC(m) == b
    ensures HitsD(Pc1(Index(b)), m) <==> PermD(m) == b
  {
    hide Pc1, PermC, PermD, Index, HitsC, HitsD, SourceOf;
    var v := Pc1(Index(b));
    Pc1There(m);
    Pc1Back(Index(b));
    Hits(v, m);
    IndexInjective(PermC(m), b);
    IndexInjective(PermD(m), b);
  }

  predicate Below(k: bv8, n: bv8) {
    k < n
  }

  /** The first `n` bits without parity have been placed. */
  ghost predicate Placed(c: bv32, d: bv32, key: Block, n: bv8) {
    && c & 0xf0000000 == 0 && d & 0xf0000000 == 0
    && (forall m: bv8 :: m < 28 ==> BitAt(c, m + 4) == (Below(Index(PermC(m)), n) && KeyBit(key, PermC(m))))
    && (forall m: bv8 :: m < 28 ==> BitAt(d, m + 4) == (Below(Index(PermD(m)), n) && KeyBit(key, PermD(m))))
  }

  /** What pc1's entry `v` makes of the two words. */
  function PutC(c: bv32, on: bool, v: bv8): bv32
    requires v < 56
  {
    if on && v >= 28 then c | (1 << (v - 28)) else c
  }

  function PutD(d: bv32, on: bool, v: bv8): bv32
    requires v < 56
  {
    if on && v < 28 then d | (1 << v) else d
  }

  lemma PutAt(x: bv32, on: bool, v: bv8, m: bv8)
    requires v < 56 && m < 28
    ensures BitAt(PutC(x, on, v), m + 4) == (BitAt(x, m + 4) || (on && HitsC(v, m)))
    ensures BitAt(PutD(x, on, v), m + 4) == (BitAt(x, m + 4) || (on && HitsD(v, m)))
  {}

  lemma PutLow(x: bv32, on: bool, v: bv8)
    requires v < 56 && x & 0xf0000000 == 0
    ensures PutC(x, on, v) & 0xf0000000 == 0 && PutD(x, on, v) & 0xf0000000 == 0
  {}

  lemma BelowNext(k: bv8, n: bv8)
    requires n < 56
    ensures Below(k, n + 1) <==> Below(k, n) || k == n
  {}

  lemma PlacedBit(c: bv32, d: bv32, key: Block, b: bv8, m: bv8)
    requires b < 64 && b & 7 != 7 && Index(b) < 56 && m < 28
    requires BitAt(c, m + 4) == (Below(Index(PermC(m)), Index(b)) && KeyBit(key, PermC(m)))
    requires BitAt(d, m + 4) == (Below(Index(PermD(m)), Index(b)) && KeyBit(key, PermD(m)))
    ensures var v, on := Pc1(Index(b)), KeyBit(key, b);
      && BitAt(PutC(c, on, v), m + 4) == (Below(Index(PermC(m)), Index(b) + 1) && KeyBit(key, PermC(m)))
      && BitAt(PutD(d, on, v), m + 4) == (Below(Index(PermD(m)), Index(b) + 1) && KeyBit(key, PermD(m)))
  {
    hide Pc1, PermC, PermD, Index, KeyBit, PutC, PutD, BitAt, Below, HitsC, HitsD;
    var v, on := Pc1(Index(b)), KeyBit(key, b);
    PlaceOfBit(b, m);
    Pc1There(m);
    IndexInjective(PermC(m), b);
    IndexInjective(PermD(m), b);
    BelowNext(Index(PermC(m)), Index(b));
    BelowNext(Index(PermD(m)), Index(b));
    PutAt(c, on, v, m);
    PutAt(d, on, v, m);
  }

  lemma PlacedStep(c: bv32, d: bv32, key: Block, b: bv8)
    requires b < 64 && b & 7 != 7 && Index(b) < 56 && Placed(c, d, key, Index(b))
    ensures Placed(PutC(c, KeyBit(key, b), Pc1(Index(b))), PutD(d, KeyBit(key, b), Pc1(Index(b))), key, Index(b) + 1)
  {
    hide Pc1, PermC, PermD, Index, KeyBit, PutC, PutD, BitAt, Below;
    var v, on := Pc1(Index(b)), KeyBit(key, b);
    forall m: bv8 | m < 28
      ensures BitAt(PutC(c, on, v), m + 4) == (Below(Index(PermC(m)), Index(b) + 1) && KeyBit(key, PermC(m)))
      ensures BitAt(PutD(d, on, v), m + 4) == (Below(Index(PermD(m)), Index(b) + 1) && KeyBit(key, PermD(m)))
    {
      assert BitAt(c, m + 4) == (Below(Index(PermC(m)), Index(b)) && KeyBit(key, PermC(m)));
      assert BitAt(d, m + 4) == (Below(Index(PermD(m)), Index(b)) && KeyBit(key, PermD(m)));
      PlacedBit(c, d, key, b, m);
    }
    PutLow(c, on, v);
    PutLow(d, on, v);
  }

  lemma NothingPlaced(key: Block)
    ensures Placed(0, 0, key, 0)
  {
    hide PermC, PermD, Index, KeyBit, Below;
    forall m: bv8 | m < 28
      ensures BitAt(0, m + 4) == (Below(Index(PermC(m)), 0) && KeyBit(key, PermC(m)))
      ensures BitAt(0, m + 4) == (Below(Index(PermD(m)), 0) && KeyBit(key, PermD(m)))
    {
      ZeroBits(m + 4);
      NoneBelow(Index(PermC(m)));
      NoneBelow(Index(PermD(m)));
    }
  }

  lemma NoneBelow(k: bv8)
    ensures !Below(k, 0)
  {}

  lemma AllPlaced(c: bv32, d: bv32, key: Block)
    requires Placed(c, d, key, 56)
    ensures LowHalves(c, d, key, 0)
  {
    hide PermC, PermD, Index, KeyBit, BitAt, Below, Turned;
    forall m: bv8 | m < 28
      ensures BitAt(c << 4, m) == KeyBit(key, PermC(Turned(m, TotalShift(0))))
      ensures BitAt(d << 4, m) == KeyBit(key, PermD(Turned(m, TotalShift(0))))
    {
      assert BitAt(c, m + 4) == (Below(Index(PermC(m)), 56) && KeyBit(key, PermC(m)));
      assert BitAt(d, m + 4) == (Below(Index(PermD(m)), 56) && KeyBit(key, PermD(m)));
      Pc1There(m);
      AllBelow(Index(PermC(m)));
      AllBelow(Index(PermD(m)));
      FourUp(c, m);
      FourUp(d, m);
      NotTurned(m);
    }
    LowNibbles(c);
    LowNibbles(d);
  }

  lemma AllBelow(k: bv8)
    requires k < 56
    ensures Below(k, 56)
  {}

  lemma FourUp(x: bv32, m: bv8)
    requires m < 28
    ensures BitAt(x << 4, m) == BitAt(x, m + 4)
  {}

  lemma LowNibbles(x: bv32)
    ensures (x << 4) & 0xf == 0
  {}

  /** Bit `j` of byte `i`. */
  function KeyPlace(i: bv8, j: bv8): bv8 {
    (i << 3) + j
  }

  lemma KeyPlaceBit(key: Block, i: bv8, j: bv8)
    requires i < 8 && j < 7
    ensures var b := KeyPlace(i, j); b < 64 && b & 7 == j && Index(b) < 56 && KeyBit(key, b) == ((ByteAt(key, i) << j) & 0x80 != 0)
    ensures Index(KeyPlace(i, j + 1)) == Index(KeyPlace(i, j)) + 1 || j == 7
  {
    assert KeyPlace(i, j) >> 3 == i && KeyPlace(i, j) & 7 == j;
  }

  lemma NextByte(i: bv8)
    requires i < 8
    ensures Index(KeyPlace(i + 1, 0)) == Index(KeyPlace(i, 6)) + 1
    ensures Index(KeyPlace(0, 0)) == 0 && Index(KeyPlace(7, 6)) == 55
  {}

  // ----- permuted choice 2

  lemma Pc2Opposite(n: bv8)
    requires n < 24
    ensures Compress(n) == 27 - Pc2C(n) && Compress(n + 24) == 55 - Pc2D(n)
  {}

  predicate LowBitAt(x: bv32, p: bv8)
    requires p < 32
  {
    (x >> p) & 1 != 0
  }

  lemma LowBit(x: bv32, p: bv8)
    requires p < 28
    ensures LowBitAt(x, p) == BitAt(x << 4, 27 - p)
  {}

  /** Six bits in a row. */
  datatype Bits6 = Bits6(a: bool, b: bool, c: bool, d: bool, e: bool, f: bool)

  function SixBits(a: bool, b: bool, c: bool, d: bool, e: bool, f: bool): Byte {
    (if a then 0x20 else 0) | (if b then 0x10 else 0) | (if c then 8 else 0) | (if d then 4 else 0) | (if e then 2 else 0) | (if f then 1 else 0)
  }

  /** The six bits of `f` from `p` on. */
  function Window(f: Bits48, p: bv8): Bits6 {
    Bits6(f(p), f(p + 1), f(p + 2), f(p + 3), f(p + 4), f(p + 5))
  }

  function Sextet(f: Bits48, p: bv8): Byte {
    SixBits(f(p), f(p + 1), f(p + 2), f(p + 3), f(p + 4), f(p + 5))
  }

  /** Six bits, the first `t` of them kept. */
  function SixUpTo(g: Bits6, t: bv8): Byte {
    SixBits(t > 0 && g.a, t > 1 && g.b, t > 2 && g.c, t > 3 && g.d, t > 4 && g.e, t > 5 && g.f)
  }

  function BitOf(g: Bits6, t: bv8): bool {
    if t == 0 then g.a else if t == 1 then g.b else if t == 2 then g.c else if t == 3 then g.d else if t == 4 then g.e else g.f
  }

  function MaskAt(t: bv8): Byte
    requires t <= 7
  {
    0x20 >> t
  }

  lemma SixUpToNext(g: Bits6, t: bv8)
    requires t < 6
    ensures SixUpTo(g, t + 1) == if BitOf(g, t) then SixUpTo(g, t) | MaskAt(t) else SixUpTo(g, t)
  {}

  lemma SixNone(g: Bits6)
    ensures SixUpTo(g, 0) == 0
  {}

  lemma MaskNext(t: bv8)
    requires t <= 6
    ensures MaskAt(t) >> 1 == MaskAt(t + 1) && (MaskAt(t) > 0 <==> t < 6) && MaskAt(0) == 0x20
  {}

  lemma FirstBits(a: bool, b: bool, c: bool, d: bool, e: bool, f: bool, g: bool, h: bool)
    ensures First(ByteOfBits(a, b, c, d, e, f, g, h)) == SixBits(a, b, c, d, e, f)
  {}

  lemma SecondBits(a: bool, b: bool, c: bool, d: bool, e: bool, f: bool, g: bool, h: bool, i: bool, j: bool, k: bool, l: bool, m: bool, n: bool, o: bool, p: bool)
    ensures Second(ByteOfBits(a, b, c, d, e, f, g, h), ByteOfBits(i, j, k, l, m, n, o, p)) == SixBits(g, h, i, j, k, l)
  {}

  lemma ThirdBits(a: bool, b: bool, c: bool, d: bool, e: bool, f: bool, g: bool, h: bool, i: bool, j: bool, k: bool, l: bool, m: bool, n: bool, o: bool, p: bool)
    ensures Third(ByteOfBits(a, b, c, d, e, f, g, h), ByteOfBits(i, j, k, l, m, n, o, p)) == SixBits(e, f, g, h, i, j)
  {}

  lemma FourthBits(a: bool, b: bool, c: bool, d: bool, e: bool, f: bool, g: bool, h: bool)
    ensures Fourth(ByteOfBits(a, b, c, d, e, f, g, h)) == SixBits(c, d, e, f, g, h)
  {}

  lemma FirstSextets(f: Bits48)
    ensures First(Byte8(f, 0)) == Sextet(f, 0)
    ensures First(Byte8(f, 24)) == Sextet(f, 24)
  {
    hide First, Second, Third, Fourth, ByteOfBits, SixBits;
    FirstBits(f(0), f(1), f(2), f(3), f(4), f(5), f(6), f(7));
    FirstBits(f(24), f(25), f(26), f(27), f(28), f(29), f(30), f(31));
  }

  lemma SecondSextets(f: Bits48)
    ensures Second(Byte8(f, 0), Byte8(f, 8)) == Sextet(f, 6)
    ensures Second(Byte8(f, 24), Byte8(f, 32)) == Sextet(f, 30)
  {
    hide First, Second, Third, Fourth, ByteOfBits, SixBits;
    SecondBits(f(0), f(1), f(2), f(3), f(4), f(5), f(6), f(7), f(8), f(9), f(10), f(11), f(12), f(13), f(14), f(15));
    SecondBits(f(24), f(25), f(26), f(27), f(28), f(29), f(30), f(31), f(32), f(33), f(34), f(35), f(36), f(37), f(38), f(39));
  }

  lemma ThirdSextets(f: Bits48)
    ensures Third(Byte8(f, 8), Byte8(f, 16)) == Sextet(f, 12)
    ensures Third(Byte8(f, 32), Byte8(f, 40)) == Sextet(f, 36)
  {
    hide First, Second, Third, Fourth, ByteOfBits, SixBits;
    ThirdBits(f(8), f(9), f(10), f(11), f(12), f(13), f(14), f(15), f(16), f(17), f(18), f(19), f(20), f(21), f(22), f(23));
    ThirdBits(f(32), f(33), f(34), f(35), f(36), f(37), f(38), f(39), f(40), f(41), f(42), f(43), f(44), f(45), f(46), f(47));
  }

  lemma FourthSextets(f: Bits48)
    ensures Fourth(Byte8(f, 16)) == Sextet(f, 18)
    ensures Fourth(Byte8(f, 40)) == Sextet(f, 42)
  {
    hide First, Second, Third, Fourth, ByteOfBits, SixBits;
    FourthBits(f(16), f(17), f(18), f(19), f(20), f(21), f(22), f(23));
    FourthBits(f(40), f(41), f(42), f(43), f(44), f(45), f(46), f(47));
  }

  /** Eight groups of six bits are the six bytes of the standard, packed. */
  lemma SextetsPacked(f: Bits48)
    ensures Packed(BytesOf(f)) == (FourGroups(Sextet(f, 0), Sextet(f, 12), Sextet(f, 24), Sextet(f, 36)),
                                   FourGroups(Sextet(f, 6), Sextet(f, 18), Sextet(f, 30), Sextet(f, 42)))
  {
    hide Byte8, Sextet, FourGroups, First, Second, Third, Fourth;
    FirstSextets(f);
    SecondSextets(f);
    ThirdSextets(f);
    FourthSextets(f);
  }

  // ----- the loops

  /** Permuted choice 1: the key's bytes are shifted out bit by bit. */
  method PermutedChoice1(key: Block) returns (c: bv32, d: bv32)
    ensures Placed(c, d, key, 56)
  {
    hide Placed, Index, Pc1, KeyBit, KeyPlace, PutC, PutD;
    c, d := 0, 0;
    var p: bv8, i: bv8 := 0, 0;
    NothingPlaced(key);
    NextByte(0);
    while i < 8
      invariant i <= 8 && p == Index(KeyPlace(i, 0)) && Placed(c, d, key, p)
      decreases 8 - i
    {
      var b, j: bv8 := ByteAt(key, i), 0;
      while j < 7
        invariant j <= 7 && b == ByteAt(key, i) << j && Placed(c, d, key, p)
        invariant if j < 7 then p == Index(KeyPlace(i, j)) else p == Index(KeyPlace(i + 1, 0))
        decreases 7 - j
      {
        KeyPlaceBit(key, i, j);
        PlacedStep(c, d, key, KeyPlace(i, j));
        NextByte(i);
        ShiftMore(ByteAt(key, i), j);
        c, d := PlaceOne(c, d, b & 0x80 != 0, Pc1(p));
        p := p + 1;
        b := b << 1;
        j := j + 1;
      }
      i := i + 1;
    }
    NextByte(7);
  }

  lemma ShiftMore(x: Byte, j: bv8)
    requires j < 7
    ensures (x << j) << 1 == x << (j + 1)
  {}

  /** The body of the inner loop. */
  method PlaceOne(c: bv32, d: bv32, on: bool, v: bv8) returns (c': bv32, d': bv32)
    requires v < 56
    ensures c' == PutC(c, on, v) && d' == PutD(d, on, v)
  {
    c', d' := c, d;
    if on {
      if v >= 28 {
        c' := c' | (1 << (v - 28));
      } else {
        d' := d' | (1 << v);
      }
    }
  }

  function Plus(x: bv8, y: bv8): bv8 {
    x + y
  }

  lemma PlusOne(n: bv8, t: bv8)
    ensures Plus(n, t) + 1 == Plus(n, t + 1)
  {}

  /** Entry `n + t` of `table` picks bit `t` of `g` from `x`. */
  predicate PicksAt(x: bv32, table: bv8 -> bv8, n: bv8, g: Bits6, t: bv8) {
    table(Plus(n, t)) < 28 && BitOf(g, t) == LowBitAt(x, table(Plus(n, t)))
  }

  ghost predicate Picks(x: bv32, table: bv8 -> bv8, n: bv8, g: Bits6) {
    forall t: bv8 :: t < 6 ==> PicksAt(x, table, n, g, t)
  }

  /** What the inner loop keeps after `t` turns. */
  ghost predicate Choosing(x: bv32, table: bv8 -> bv8, n: bv8, g: Bits6, t: bv8, p: bv8, mask: Byte, k: Byte) {
    t <= 6 && mask == MaskAt(t) && p == Plus(n, t) && k == SixUpTo(g, t)
  }

  lemma ChoosingStep(x: bv32, table: bv8 -> bv8, n: bv8, g: Bits6, t: bv8, p: bv8, mask: Byte, k: Byte)
    requires Picks(x, table, n, g) && Choosing(x, table, n, g, t, p, mask, k) && mask > 0
    ensures t < 6 && table(p) < 28
    ensures Choosing(x, table, n, g, t + 1, p + 1, mask >> 1, if LowBitAt(x, table(p)) then k | mask else k)
  {
    hide SixUpTo, MaskAt, LowBitAt, BitOf, Plus;
    MaskNext(t);
    PlusOne(n, t);
    assert PicksAt(x, table, n, g, t);
    SixUpToNext(g, t);
  }

  /** One group of permuted choice 2. */
  method ChooseSix(x: bv32, table: bv8 -> bv8, n: bv8, ghost g: Bits6) returns (k: Byte, p: bv8)
    requires Picks(x, table, n, g)
    ensures k == SixUpTo(g, 6) && p == n + 6
  {
    hide Choosing, Picks, MaskAt, SixUpTo, LowBitAt;
    k, p := 0, n;
    var mask: Byte := 0x20;
    ghost var t: bv8 := 0;
    ChoosingFirst(x, table, n, g);
    while mask > 0
      invariant Choosing(x, table, n, g, t, p, mask, k) && t <= 6
      decreases 6 - t
    {
      ChoosingStep(x, table, n, g, t, p, mask, k);
      if LowBitAt(x, table(p)) {
        k := k | mask;
      }
      mask, p, t := mask >> 1, p + 1, t + 1;
    }
    ChoosingLast(x, table, n, g, t, p, mask, k);
  }

  lemma ChoosingFirst(x: bv32, table: bv8 -> bv8, n: bv8, g: Bits6)
    ensures Choosing(x, table, n, g, 0, n, 0x20, 0)
  {
    hide SixUpTo;
    MaskNext(0);
    SixNone(g);
  }

  lemma ChoosingLast(x: bv32, table: bv8 -> bv8, n: bv8, g: Bits6, t: bv8, p: bv8, mask: Byte, k: Byte)
    requires Choosing(x, table, n, g, t, p, mask, k) && mask == 0
    ensures k == SixUpTo(g, 6) && p == n + 6
  {
    hide SixUpTo, MaskAt;
    MaskNext(t);
    assert t == 6;
  }

  /** Where group `k` starts. */
  function Start(k: nat): bv8 {
    match k case 0 => 0 case 1 => 6 case 2 => 12 case 3 => 18 case 4 => 24 case 5 => 30 case 6 => 36 case _ => 42
  }

  lemma SextetOfWindow(f: Bits48, p: bv8)
    ensures SixUpTo(Window(f, p), 6) == Sextet(f, p)
  {
    hide SixBits;
  }

  /** One half's table picks the bits of `f` from place `off` on. */
  ghost predicate HalfPicks(x: bv32, table: bv8 -> bv8, f: Bits48, off: bv8) {
    forall n: bv8 :: n < 24 ==> table(n) < 28 && f(Plus(n, off)) == LowBitAt(x, table(n))
  }

  lemma HalfPicksAt(x: bv32, table: bv8 -> bv8, f: Bits48, off: bv8, m: bv8)
    requires m < 24 && HalfPicks(x, table, f, off)
    ensures table(m) < 28 && f(Plus(m, off)) == LowBitAt(x, table(m))
  {}

  lemma WindowBit(x: bv32, table: bv8 -> bv8, f: Bits48, off: bv8, p: bv8, t: bv8, m: bv8)
    requires m < 24 && t < 6 && HalfPicks(x, table, f, off) && Plus(m, off) == Plus(p, t)
    ensures table(m) < 28 && BitOf(Window(f, p), t) == LowBitAt(x, table(m))
  {
    hide LowBitAt, HalfPicks, Window, BitOf, Plus;
    HalfPicksAt(x, table, f, off, m);
    WindowAt(f, p, t);
  }

  lemma WindowAt(f: Bits48, p: bv8, t: bv8)
    requires t < 6
    ensures BitOf(Window(f, p), t) == f(Plus(p, t))
  {
    if t == 0 {
      assert p + t == p;
    } else if t == 1 {
      assert p + t == p + 1;
    } else if t == 2 {
      assert p + t == p + 2;
    } else if t == 3 {
      assert p + t == p + 3;
    } else if t == 4 {
      assert p + t == p + 4;
    } else {
      assert t == 5 && p + t == p + 5;
    }
  }

  lemma WindowPicksAt(x: bv32, table: bv8 -> bv8, f: Bits48, n: bv8, off: bv8, t: bv8)
    requires n <= 18 && t < 6 && HalfPicks(x, table, f, off)
    ensures PicksAt(x, table, n, Window(f, Plus(n, off)), t)
  {
    hide LowBitAt, HalfPicks, Window, BitOf, Plus;
    Turn(n, t, off);
    WindowBit(x, table, f, off, Plus(n, off), t, Plus(n, t));
  }

  lemma WindowPicked(x: bv32, table: bv8 -> bv8, f: Bits48, n: bv8, off: bv8)
    requires n <= 18 && HalfPicks(x, table, f, off)
    ensures Picks(x, table, n, Window(f, Plus(n, off)))
  {
    hide PicksAt, HalfPicks, Window, Plus;
    forall t: bv8 | t < 6
      ensures PicksAt(x, table, n, Window(f, Plus(n, off)), t)
    {
      WindowPicksAt(x, table, f, n, off, t);
    }
  }

  lemma Turn(n: bv8, t: bv8, off: bv8)
    requires n <= 18 && t < 6
    ensures Plus(n, t) < 24 && Plus(Plus(n, t), off) == Plus(Plus(n, off), t)
  {}

  method ChooseFour(x: bv32, table: bv8 -> bv8, w: array<Byte>, at: nat, ghost f: Bits48)
    requires w.Length == 8 && (at == 0 || at == 4) && HalfPicks(x, table, f, Start(at))
    modifies w
    ensures forall k :: at <= k < at + 4 ==> w[k] == Sextet(f, Start(k))
    ensures forall k :: 0 <= k < 8 && !(at <= k < at + 4) ==> w[k] == old(w[k])
  {
    hide Sextet, HalfPicks, SixUpTo, Picks, Window;
    var p: bv8 := 0;
    for j := 0 to 4
      invariant p == Start(j) && j <= 4
      invariant forall k :: at <= k < at + j ==> w[k] == Sextet(f, Start(k))
      invariant forall k :: 0 <= k < 8 && !(at <= k < at + 4) ==> w[k] == old(w[k])
    {
      Starts(j, at);
      WindowPicked(x, table, f, p, Start(at));
      SextetOfWindow(f, Start(at + j));
      w[at + j], p := ChooseSix(x, table, p, Window(f, Start(at + j)));
    }
  }

  lemma Starts(j: nat, at: nat)
    requires j < 4 && (at == 0 || at == 4)
    ensures Start(j) <= 18 && Start(j) + 6 == Start(j + 1) && Plus(Start(j), Start(at)) == Start(at + j) && Start(at + j) <= 42
  {}

  // ----- des_setkey

  lemma PicksC(c: bv32, d: bv32, n: bv8)
    requires n < 24
    ensures HalfBits(c << 4, d << 4)(Plus(n, 0)) == LowBitAt(c, Pc2C(n))
  {
    hide Pc2C, Compress, BitAt, LowBitAt;
    assert Plus(n, 0) == n;
    Pc2Opposite(n);
    LowBit(c, Pc2C(n));
  }

  lemma PicksD(c: bv32, d: bv32, n: bv8)
    requires n < 24
    ensures HalfBits(c << 4, d << 4)(Plus(n, 24)) == LowBitAt(d, Pc2D(n))
  {
    hide Pc2D, Compress, BitAt, LowBitAt;
    assert Plus(n, 24) == n + 24;
    Pc2Opposite(n);
    LowBit(d, Pc2D(n));
  }

  lemma HalvesPicked(c: bv32, d: bv32)
    ensures HalfPicks(c, Pc2C, HalfBits(c << 4, d << 4), 0) && HalfPicks(d, Pc2D, HalfBits(c << 4, d << 4), 24)
  {
    hide Pc2C, Pc2D, HalfBits, LowBitAt, Plus;
    var f := HalfBits(c << 4, d << 4);
    forall n: bv8 | n < 24
      ensures f(Plus(n, 0)) == LowBitAt(c, Pc2C(n)) && f(Plus(n, 24)) == LowBitAt(d, Pc2D(n))
    {
      PicksC(c, d, n);
      PicksD(c, d, n);
    }
  }

  /** The sixteen pairs of words hold the round keys of `key`, packed. */
  ghost predicate Keyed(keys: array2<bv32>, key: Block)
    reads keys
  {
    keys.Length0 == 16 && keys.Length1 == 2 && forall i :: 0 <= i < 16 ==> (keys[i, 0], keys[i, 1]) == Packed(KeyOfRound(key, i))
  }

  /** One turn of the half in the low 28 bits. */
  method TurnLowHalf(x: bv32, s: bv8) returns (y: bv32)
    requires s == 1 || s == 2
    ensures y == TurnLow(x, s)
  {
    ShiftBySmall(x, s);
    y := ((x << s) | (x >> (28 - s))) & 0x0fffffff;
  }

  /** What the two low halves hold after `n` turns. */
  ghost predicate LowHalves(c: bv32, d: bv32, key: Block, n: nat)
    requires n <= 16
  {
    c & 0xf0000000 == 0 && d & 0xf0000000 == 0 && HalvesAt(c << 4, d << 4, key, n)
  }

  lemma LowHalvesTurn(c: bv32, d: bv32, key: Block, n: nat)
    requires n < 16 && LowHalves(c, d, key, n)
    ensures LowHalves(TurnLow(c, RoundShift(n)), TurnLow(d, RoundShift(n)), key, n + 1)
  {
    hide HalvesAt, TurnLow, TurnHigh, RoundShift;
    TurnLowHigh(c, RoundShift(n));
    TurnLowHigh(d, RoundShift(n));
    HalvesTurn(c << 4, d << 4, key, n);
  }

  /** The round key that two low halves give. */
  function PairOf(c: bv32, d: bv32): KeyPair {
    Packed(BytesOf(HalfBits(c << 4, d << 4)))
  }

  lemma LowHalvesKey(c: bv32, d: bv32, key: Block, n: nat)
    requires n < 16 && LowHalves(c, d, key, n + 1)
    ensures PairOf(c, d) == Packed(KeyOfRound(key, n))
  {
    hide HalvesAt, HalfBits, BytesOf, KeyOfRound, Packed;
    HalvesKey(c << 4, d << 4, key, n);
  }

  method FillPair(keys: array2<bv32>, i: nat, c: bv32, d: bv32)
    requires i < keys.Length0 && keys.Length1 == 2
    modifies keys
    ensures (keys[i, 0], keys[i, 1]) == PairOf(c, d)
    ensures forall n, k :: 0 <= n < keys.Length0 && 0 <= k < 2 && n != i ==> keys[n, k] == old(keys[n, k])
  {
    hide Pc2C, Pc2D, HalfBits, HalfPicks, Sextet, FourGroups, Packed, BytesOf;
    ghost var f := HalfBits(c << 4, d << 4);
    var w := new Byte[8];
    HalvesPicked(c, d);
    ChooseFour(c, Pc2C, w, 0, f);
    ChooseFour(d, Pc2D, w, 4, f);
    SextetsPacked(f);
    keys[i, 0] := FourGroups(w[0], w[2], w[4], w[6]);
    keys[i, 1] := FourGroups(w[1], w[3], w[5], w[7]);
  }

  /** nshifts. */
  function NShifts(i: nat): (s: bv8)
    requires i < 16
    ensures s == RoundShift(i)
  {
    [1, 1, 2, 2, 2, 2, 2, 2, 1, 2, 2, 2, 2, 2, 2, 1][i]
  }

  method SetKey(key: Block, keys: array2<bv32>)
    requires keys.Length0 == 16 && keys.Length1 == 2
    modifies keys
    ensures Keyed(keys, key)
  {
    hide Placed, LowHalves, PairOf, KeyOfRound, Packed, TurnLow, RoundShift, NShifts;
    var c, d := PermutedChoice1(key);
    AllPlaced(c, d, key);
    for i := 0 to 16
      invariant LowHalves(c, d, key, i)
      invariant forall n :: 0 <= n < i ==> (keys[n, 0], keys[n, 1]) == Packed(KeyOfRound(key, n))
    {
      LowHalvesTurn(c, d, key, i);
      c := TurnLowHalf(c, NShifts(i));
      d := TurnLowHalf(d, NShifts(i));
      LowHalvesKey(c, d, key, i);
      FillPair(keys, i, c, d);
    }
  }
}
