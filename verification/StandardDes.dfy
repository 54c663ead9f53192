/** The bit-level engine as it runs: loops over tables, a schedule filled in place (src/leo_standard_des_crypto.c:190-286). */
module StandardDes {
  import opened Bits
  import opened DesKeySpec
  import opened StandardDesSpec

  // ----- permuted choice 1

  /** BITNUM with a computed bit number. */
  function BitNum(key: Block, b: bv8, c: bv8): bv32
    requires b < 64 && c < 32
  {
    (((ByteAt(key, b >> 3) >> (7 - (b & 7))) & 0x01) as bv32) << c
  }

  lemma BitNumFlag(key: Block, b: bv8, c: bv8)
    requires b < 64 && c < 32
    ensures BitNum(key, b, c) == Flag(KeyBit(key, b)) << c
  {
    GetByteBit(ByteAt(key, b >> 3), b & 7);
  }

  lemma LowNibble(x: bv32)
    requires !BitAt(x, 28) && !BitAt(x, 29) && !BitAt(x, 30) && !BitAt(x, 31)
    ensures x & 0xf == 0
  {}

  ghost predicate Chosen(x: bv32, key: Block, perm: bv8 -> bv8, i: bv8)
    requires forall m: bv8 :: m < 28 ==> perm(m) < 64
    requires i <= 28
  {
    forall m: bv8 :: m < 32 ==> BitAt(x, m) == (m < i && KeyBit(key, perm(m)))
  }

  lemma ChosenStep(x: bv32, key: Block, perm: bv8 -> bv8, i: bv8)
    requires forall m: bv8 :: m < 28 ==> perm(m) < 64
    requires i < 28 && Chosen(x, key, perm, i)
    ensures Chosen(x | BitNum(key, perm(i), 31 - i), key, perm, i + 1)
  {
    var x' := x | BitNum(key, perm(i), 31 - i);
    forall m: bv8 | m < 32
      ensures BitAt(x', m) == (m < i + 1 && KeyBit(key, perm(m)))
    {
      assert BitAt(x, m) == (m < i && KeyBit(key, perm(m)));
      ChosenMember(x, key, perm, i, m);
    }
  }

  lemma ChosenMember(x: bv32, key: Block, perm: bv8 -> bv8, i: bv8, m: bv8)
    requires forall m: bv8 :: m < 28 ==> perm(m) < 64
    requires i < 28 && m < 32 && BitAt(x, m) == (m < i && KeyBit(key, perm(m)))
    ensures BitAt(x | BitNum(key, perm(i), 31 - i), m) == (m < i + 1 && KeyBit(key, perm(m)))
  {
    BitNumFlag(key, perm(i), 31 - i);
    OneMore(m, i);
    ChosenAt(x, KeyBit(key, perm(i)), m < 28 && KeyBit(key, perm(m)), i, m);
  }

  lemma ChosenAt(x: bv32, fi: bool, fm: bool, i: bv8, m: bv8)
    requires m < 32 && i < 28 && BitAt(x, m) == (m < i && fm) && (m == i ==> fm == fi)
    ensures BitAt(x | (Flag(fi) << (31 - i)), m) == (m < i + 1 && fm)
  {
    SetBit(x, fi, 31 - i, m);
    OneMore(m, i);
  }

  lemma OneMore(m: bv8, i: bv8)
    requires i < 28
    ensures m == 31 - (31 - i) <==> m == i
    ensures m < i + 1 <==> m < i || m == i
  {}

  method Choose(key: Block, perm: bv8 -> bv8) returns (x: bv32)
    requires forall m: bv8 :: m < 28 ==> perm(m) < 64
    ensures x & 0xf == 0 && Chosen(x, key, perm, 28)
  {
    x := 0;
    var i: bv8, j: bv8 := 0, 31;
    forall m: bv8 | m < 32 ensures !BitAt(0, m) { ZeroBits(m); }
    while i < 28
      invariant i <= 28 && j == 31 - i && Chosen(x, key, perm, i)
    {
      ChosenStep(x, key, perm, i);
      x := x | BitNum(key, perm(i), j);
      i, j := i + 1, j - 1;
    }
    LowNibble(x);
  }

  // ----- permuted choice 2

  /** Which bit of the halves goes to place `j` of the round key. */
  function HalfBits(c: bv32, d: bv32): Bits48 {
    j => j < 48 && (if j < 24 then BitAt(c, Compress(j)) else BitAt(d, Compress(j) - 28))
  }

  lemma BitRFlag(x: bv32, b: bv8, c: bv8)
    requires b < 32 && c < 8
    ensures BitR(x, b, c) == (if BitAt(x, b) then 1 else 0) << c
  {
    GetBit(x, b);
  }

  /** `a[g, ..]` holds `row`. */
  ghost predicate RowIs(a: array2<Byte>, g: nat, row: RoundKey)
    requires g < a.Length0 && a.Length1 == 6
    reads a
  {
    forall k :: 0 <= k < 6 ==> a[g, k] == row[k]
  }

  /** No other row of `a` has changed. */
  twostate predicate OthersKept(a: array2<Byte>, g: nat)
    requires g < a.Length0 && a.Length1 == 6
    reads a
  {
    forall i, k :: 0 <= i < a.Length0 && 0 <= k < 6 && i != g ==> a[i, k] == old(a[i, k])
  }

  lemma PutBit(row: RoundKey, x: bv32, b: bv8, j: bv8, f: Bits48)
    requires j < 48 && b < 32 && BitAt(x, b) == f(j) && RowFilled(row, f, j)
    ensures RowFilled(row[Div8(j) := row[Div8(j)] | BitR(x, b, 7 - (j & 7))], f, j + 1)
  {
    RowStep(row, f, j);
    BitRFlag(x, b, 7 - (j & 7));
  }

  method SetCell(a: array2<Byte>, g: nat, k: nat, v: Byte, ghost row: RoundKey)
    requires g < a.Length0 && a.Length1 == 6 && k < 6 && RowIs(a, g, row)
    modifies a
    ensures RowIs(a, g, row[k := row[k] | v])
    ensures OthersKept(a, g)
  {
    a[g, k] := a[g, k] | v;
  }

  /** One assignment of the compression loops. */
  method OrInto(a: array2<Byte>, g: nat, x: bv32, b: bv8, j: bv8, ghost row: RoundKey, ghost f: Bits48) returns (ghost more: RoundKey)
    requires g < a.Length0 && a.Length1 == 6 && j < 48 && b < 32 && BitAt(x, b) == f(j)
    requires RowIs(a, g, row) && RowFilled(row, f, j)
    modifies a
    ensures RowIs(a, g, more) && RowFilled(more, f, j + 1)
    ensures OthersKept(a, g)
  {
    hide *;
    SetCell(a, g, Div8(j), BitR(x, b, 7 - (j & 7)), row);
    more := row[Div8(j) := row[Div8(j)] | BitR(x, b, 7 - (j & 7))];
    PutBit(row, x, b, j, f);
  }

  method ClearRow(a: array2<Byte>, g: nat)
    requires g < a.Length0 && a.Length1 == 6
    modifies a
    ensures RowIs(a, g, [0, 0, 0, 0, 0, 0])
    ensures OthersKept(a, g)
  {
    for k := 0 to 6
      invariant forall k' :: 0 <= k' < k ==> a[g, k'] == 0
      invariant OthersKept(a, g)
    {
      a[g, k] := 0;
    }
  }

  lemma HalfBit(c: bv32, d: bv32, j: bv8)
    requires j < 48
    ensures j < 24 ==> BitAt(c, Compress(j)) == HalfBits(c, d)(j)
    ensures j >= 24 ==> BitAt(d, Compress(j) - 28) == HalfBits(c, d)(j)
  {}

  method FillRow(a: array2<Byte>, g: nat, c: bv32, d: bv32)
    requires g < a.Length0 && a.Length1 == 6
    modifies a
    ensures RowIs(a, g, BytesOf(HalfBits(c, d)))
    ensures OthersKept(a, g)
  {
    hide RowIs, RowFilled, HalfBits, Compress, BitAt;
    ghost var f := HalfBits(c, d);
    ClearRow(a, g);
    ghost var row: RoundKey := [0, 0, 0, 0, 0, 0];
    EmptyRow(row, f);
    var j: bv8 := 0;
    while j < 24
      invariant j <= 24 && RowFilled(row, f, j) && RowIs(a, g, row) && OthersKept(a, g)
    {
      HalfBit(c, d, j);
      row := OrInto(a, g, c, Compress(j), j, row, f);
      j := j + 1;
    }
    while j < 48
      invariant 24 <= j <= 48 && RowFilled(row, f, j) && RowIs(a, g, row) && OthersKept(a, g)
    {
      HalfBit(c, d, j);
      row := OrInto(a, g, d, Compress(j) - 28, j, row, f);
      j := j + 1;
    }
    RowDone(row, f);
  }

  lemma EmptyRow(row: RoundKey, f: Bits48)
    requires row == [0, 0, 0, 0, 0, 0]
    ensures RowFilled(row, f, 0)
  {
    forall p: bv8 | p < 48
      ensures ByteBit(row[Div8(p)], p & 7) == (p < 0 && f(p))
    {
      ZeroBits(p & 7);
    }
  }

  // ----- the schedule

  /** What the two halves hold after `n` turns. */
  ghost predicate HalvesAt(c: bv32, d: bv32, key: Block, n: nat)
    requires n <= 16
  {
    && c & 0xf == 0 && d & 0xf == 0
    && (forall m: bv8 :: m < 28 ==> BitAt(c, m) == KeyBit(key, PermC(Turned(m, TotalShift(n)))))
    && (forall m: bv8 :: m < 28 ==> BitAt(d, m) == KeyBit(key, PermD(Turned(m, TotalShift(n)))))
  }

  lemma HalfTurnBit(c: bv32, s: bv8, t: bv8, key: Block, perm: bv8 -> bv8, m: bv8)
    requires (s == 1 || s == 2) && t <= 28 && t + s <= 28 && c & 0xf == 0 && m < 28
    requires perm(Turned(Turned(m, s), t)) < 64
    requires BitAt(c, Turned(m, s)) == KeyBit(key, perm(Turned(Turned(m, s), t)))
    ensures perm(Turned(m, t + s)) < 64 && BitAt(TurnHigh(c, s), m) == KeyBit(key, perm(Turned(m, t + s)))
  {
    TurnHighBit(c, s, m);
    TurnTurned(m, s, t);
  }

  lemma HalvesTurn(c: bv32, d: bv32, key: Block, n: nat)
    requires n < 16 && HalvesAt(c, d, key, n)
    ensures HalvesAt(TurnHigh(c, RoundShift(n)), TurnHigh(d, RoundShift(n)), key, n + 1)
  {
    hide BitAt, KeyBit, PermC, PermD, Turned, TurnHigh, TotalShift, RoundShift;
    var s, t := RoundShift(n), TotalShift(n);
    TotalShiftStep(n);
    TurnHighBit(c, s, 0);
    TurnHighBit(d, s, 0);
    forall m: bv8 | m < 28
      ensures BitAt(TurnHigh(c, s), m) == KeyBit(key, PermC(Turned(m, TotalShift(n + 1))))
    {
      assert BitAt(c, Turned(m, s)) == KeyBit(key, PermC(Turned(Turned(m, s), t)));
      HalfTurnBit(c, s, t, key, PermC, m);
    }
    forall m: bv8 | m < 28
      ensures BitAt(TurnHigh(d, s), m) == KeyBit(key, PermD(Turned(m, TotalShift(n + 1))))
    {
      assert BitAt(d, Turned(m, s)) == KeyBit(key, PermD(Turned(Turned(m, s), t)));
      HalfTurnBit(d, s, t, key, PermD, m);
    }
  }

  lemma HalvesKeyBit(c: bv32, d: bv32, key: Block, n: nat, j: bv8)
    requires n < 16 && HalvesAt(c, d, key, n + 1) && j < 48
    ensures HalfBits(c, d)(j) == RoundBits(key, n)(j)
  {
    hide BitAt, KeyBit, PermC, PermD, Turned, TotalShift, Compress;
    var q := Compress(j);
    if j < 24 {
      assert BitAt(c, q) == KeyBit(key, PermC(Turned(q, TotalShift(n + 1))));
    } else {
      assert BitAt(d, q - 28) == KeyBit(key, PermD(Turned(q - 28, TotalShift(n + 1))));
    }
  }

  lemma HalvesKey(c: bv32, d: bv32, key: Block, n: nat)
    requires n < 16 && HalvesAt(c, d, key, n + 1)
    ensures BytesOf(HalfBits(c, d)) == KeyOfRound(key, n)
  {
    hide BytesOf, HalvesAt, HalfBits, RoundBits;
    var f, g := HalfBits(c, d), RoundBits(key, n);
    forall j: bv8 | j < 48
      ensures f(j) == g(j)
    {
      HalvesKeyBit(c, d, key, n, j);
    }
    SameBits(f, g);
  }

  lemma ChosenHalves(c: bv32, d: bv32, key: Block)
    requires c & 0xf == 0 && Chosen(c, key, PermC, 28) && d & 0xf == 0 && Chosen(d, key, PermD, 28)
    ensures HalvesAt(c, d, key, 0)
  {
    hide BitAt, KeyBit, PermC, PermD, Turned;
    forall m: bv8 | m < 28
      ensures BitAt(c, m) == KeyBit(key, PermC(Turned(m, TotalShift(0)))) && BitAt(d, m) == KeyBit(key, PermD(Turned(m, TotalShift(0))))
    {
      assert BitAt(c, m) == (m < 28 && KeyBit(key, PermC(m))) && BitAt(d, m) == (m < 28 && KeyBit(key, PermD(m)));
      NotTurned(m);
    }
  }

  lemma NotTurned(m: bv8)
    requires m < 28
    ensures Turned(m, 0) == m
  {}

  datatype Mode = ENCRYPT | DECRYPT

  /** The row that round `i` of the setup fills. */
  function ToGen(mode: Mode, i: nat): (g: nat)
    requires i < 16
    ensures g < 16
  {
    if mode == DECRYPT then 15 - i else i
  }

  /** The schedule for a mode: the round keys, in reverse for deciphering. */
  function ScheduleFor(key: Block, mode: Mode): (s: seq<RoundKey>)
    ensures |s| == 16
  {
    seq(16, g requires 0 <= g < 16 => KeyOfRound(key, ToGen(mode, g)))
  }

  /** `a` holds the sixteen round keys `ks`. */
  ghost predicate Holds(a: array2<Byte>, ks: seq<RoundKey>)
    reads a
  {
    a.Length0 == 16 && a.Length1 == 6 && |ks| == 16 && forall g :: 0 <= g < 16 ==> RowIs(a, g, ks[g])
  }

  method TurnHalf(x: bv32, s: bv8) returns (y: bv32)
    requires s == 1 || s == 2
    ensures y == TurnHigh(x, s)
  {
    ShiftBySmall(x, s);
    y := ((x << s) | (x >> (28 - s))) & 0xfffffff0;
  }

  method DesKeySetup(key: Block, schedule: array2<Byte>, mode: Mode)
    requires schedule.Length0 == 16 && schedule.Length1 == 6
    modifies schedule
    ensures Holds(schedule, ScheduleFor(key, mode))
  {
    hide RoundShift, TurnHigh, HalvesAt, Chosen, KeyOfRound, BytesOf, HalfBits;
    var c := Choose(key, PermC);
    var d := Choose(key, PermD);
    ChosenHalves(c, d, key);
    for i := 0 to 16
      invariant HalvesAt(c, d, key, i)
      invariant forall n :: 0 <= n < i ==> RowIs(schedule, ToGen(mode, n), KeyOfRound(key, n))
    {
      HalvesTurn(c, d, key, i);
      c := TurnHalf(c, RoundShift(i));
      d := TurnHalf(d, RoundShift(i));
      HalvesKey(c, d, key, i);
      FillRow(schedule, ToGen(mode, i), c, d);
    }
    forall g | 0 <= g < 16
      ensures RowIs(schedule, g, KeyOfRound(key, ToGen(mode, g)))
    {
      assert ToGen(mode, ToGen(mode, g)) == g;
    }
  }
}
