/** The checksum of a frame (src/leo_dof_crypto.c:62-128). Its table is the reflected one of CRC-32, but bytes are fed in from
    the other end, so this is not CRC-32. The table is modelled with all 256 entries that the code fills and looks up. */
module FrameChecksum {
  import opened Bits

  // ----- reflect

  /** The bits of `v` in reverse. */
  function Reflected(v: bv32): bv32 {
    ((v & 0x00000001) << 31) | ((v & 0x00000002) << 29) | ((v & 0x00000004) << 27) | ((v & 0x00000008) << 25) |
    ((v & 0x00000010) << 23) | ((v & 0x00000020) << 21) | ((v & 0x00000040) << 19) | ((v & 0x00000080) << 17) |
    ((v & 0x00000100) << 15) | ((v & 0x00000200) << 13) | ((v & 0x00000400) << 11) | ((v & 0x00000800) << 9) |
    ((v & 0x00001000) << 7) | ((v & 0x00002000) << 5) | ((v & 0x00004000) << 3) | ((v & 0x00008000) << 1) |
    ((v & 0x00010000) >> 1) | ((v & 0x00020000) >> 3) | ((v & 0x00040000) >> 5) | ((v & 0x00080000) >> 7) |
    ((v & 0x00100000) >> 9) | ((v & 0x00200000) >> 11) | ((v & 0x00400000) >> 13) | ((v & 0x00800000) >> 15) |
    ((v & 0x01000000) >> 17) | ((v & 0x02000000) >> 19) | ((v & 0x04000000) >> 21) | ((v & 0x08000000) >> 23) |
    ((v & 0x10000000) >> 25) | ((v & 0x20000000) >> 27) | ((v & 0x40000000) >> 29) | ((v & 0x80000000) >> 31)
  }

  function Up(x: bv32, k: bv8): bv32
    requires k <= 32
  {
    x << k
  }

  function Down(x: bv32, k: bv8): bv32
    requires k <= 32
  {
    x >> k
  }

  function OneAt(k: bv8): bv32
    requires k < 32
  {
    1 << k
  }

  function Or(x: bv32, y: bv32): bv32 {
    x | y
  }

  function Last(x: bv32): bv32 {
    x & 1
  }

  lemma ReflectedBit(l: bv32, i: bv8)
    requires i < 32
    ensures Last(Down(l, i)) == Last(Down(Reflected(l), 31 - i))
  {}

  lemma ReflectedTwice(v: bv32)
    ensures Reflected(Reflected(v)) == v
  {}

  /** The top `i` bits of `r`. */
  function Top(r: bv32, i: bv8): bv32
    requires i <= 32
  {
    r & !((0xffffffff as bv32) >> i)
  }

  lemma TopNext(r: bv32, i: bv8)
    requires i < 32
    ensures Top(r, i + 1) == Or(Top(r, i), Up(Last(Down(r, 31 - i)), 31 - i))
  {}

  lemma OrDown(x: bv32, y: bv32, k: bv8)
    requires k <= 32
    ensures Down(Or(x, y), k) == Or(Down(x, k), Down(y, k))
  {
    hide Down;
    OrShift(x, y, k);
    DownIs(x, k, x >> k);
    DownIs(y, k, y >> k);
    DownIs(Or(x, y), k, (x | y) >> k);
  }

  lemma DownIs(x: bv32, k: bv8, z: bv32)
    requires k <= 32 && z == x >> k
    ensures Down(x, k) == z
  {}

  lemma OrShift(x: bv32, y: bv32, k: bv8)
    requires k <= 32
    ensures (x | y) >> k == (x >> k) | (y >> k)
  {}

  lemma UpDown(b: bv32, i: bv8, c: bv8)
    requires i < c && c <= 32 && b <= 1
    ensures Down(Up(b, 31 - i), 32 - c) == if b == 0 then 0 else OneAt(c - 1 - i)
  {
    if b == 1 {
      OneUpDown(i, c);
    }
  }

  lemma OneUpDown(i: bv8, c: bv8)
    requires i < c && c <= 32
    ensures ((1 as bv32) << (31 - i)) >> (32 - c) == 1 << (c - 1 - i)
  {}

  lemma OrZero(x: bv32)
    ensures Or(x, 0) == x
  {}

  lemma LastSmall(x: bv32)
    ensures Last(x) <= 1
  {}

  /** What the loop has put together after looking at the lowest `i` bits. */
  function Turned(l: bv32, i: bv8, c: bv8): bv32
    requires i <= 32 && c <= 32
  {
    Down(Top(Reflected(l), i), 32 - c)
  }

  /** The turn that looks at bit `i`. */
  lemma ReflectTurn(l: bv32, i: bv8, c: bv8)
    requires i < c && c <= 32
    ensures Turned(l, i + 1, c) == if Last(Down(l, i)) == 0 then Turned(l, i, c) else Or(Turned(l, i, c), OneAt(c - 1 - i))
  {
    hide Top, Reflected, Up, Down, Last, OneAt, Or;
    var r := Reflected(l);
    var b := Last(Down(r, 31 - i));
    ReflectedBit(l, i);
    TopNext(r, i);
    LastSmall(Down(r, 31 - i));
    OrDown(Top(r, i), Up(b, 31 - i), 32 - c);
    UpDown(b, i, c);
    OrZero(Turned(l, i, c));
  }

  lemma NothingTurned(l: bv32, c: bv8)
    requires c <= 32
    ensures Turned(l, 0, c) == 0
  {
    hide Reflected;
    NoTop(Reflected(l));
    assert Down(0, 32 - c) == 0;
  }

  lemma NoTop(r: bv32)
    ensures Top(r, 0) == 0
  {}

  lemma AllTurned(l: bv32, c: bv8)
    requires c <= 32
    ensures Turned(l, c, c) == Down(Reflected(l), 32 - c)
  {
    hide Reflected, Down, Top;
    TopDown(Reflected(l), c);
  }

  lemma TopDown(r: bv32, c: bv8)
    requires c <= 32
    ensures Down(Top(r, c), 32 - c) == Down(r, 32 - c)
  {
    TopDownBits(r, c);
  }

  lemma TopDownBits(r: bv32, c: bv8)
    requires c <= 32
    ensures Top(r, c) >> (32 - c) == r >> (32 - c)
  {}

  lemma DownMore(l: bv32, i: bv8)
    requires i < 32
    ensures Down(Down(l, i), 1) == Down(l, i + 1)
  {
    ShiftMore(l, i);
  }

  lemma ShiftMore(l: bv32, i: bv8)
    requires i < 32
    ensures (l >> i) >> 1 == l >> (i + 1)
  {}

  lemma DownNone(l: bv32)
    ensures Down(l, 0) == l
  {}

  /** The lowest `c` bits in reverse. */
  method Reflect(l: bv32, c: bv8) returns (val: bv32)
    requires c <= 32
    ensures val == Down(Reflected(l), 32 - c)
  {
    hide Turned, Reflected, Down, OneAt, Or, Last;
    val := 0;
    var i: bv8, x := 0, l;
    NothingTurned(l, c);
    DownNone(l);
    while i < c
      invariant i <= c && x == Down(l, i) && val == Turned(l, i, c)
      decreases c - i
    {
      ReflectTurn(l, i, c);
      DownMore(l, i);
      if Last(x) != 0 {
        val := Or(val, OneAt(c - 1 - i));
      }
      x, i := Down(x, 1), i + 1;
    }
    AllTurned(l, c);
  }

  // ----- the table

  predicate HighBit(v: bv32) {
    v & 0x80000000 != 0
  }

  predicate LowBit(v: bv32) {
    v & 1 != 0
  }

  function ShiftUp(v: bv32): bv32 {
    v << 1
  }

  function ShiftLow(v: bv32): bv32 {
    v >> 1
  }

  /** The body of the inner loop, with the polynomial of line 6. */
  function Double(v: bv32): bv32 {
    Xor(ShiftUp(v), if HighBit(v) then 0x04c11db7 else 0)
  }

  /** One step of dividing by the reflected polynomial. */
  function Halve(v: bv32): bv32 {
    Xor(ShiftLow(v), if LowBit(v) then 0xedb88320 else 0)
  }

  /** An entry of the reflected table of CRC-32. */
  function Entry(x: Byte): bv32 {
    Halve(Halve(Halve(Halve(Halve(Halve(Halve(Halve(x as bv32))))))))
  }

  lemma ReflectedShift(v: bv32)
    ensures Reflected(ShiftUp(v)) == ShiftLow(Reflected(v))
  {
    ReflectedShiftBits(v);
  }

  lemma ReflectedShiftBits(v: bv32)
    ensures Reflected(v << 1) == Reflected(v) >> 1
  {}

  lemma ReflectedPolynomial(v: bv32, on: bool)
    ensures Reflected(Xor(v, if on then 0x04c11db7 else 0)) == Xor(Reflected(v), if on then 0xedb88320 else 0)
  {
    hide Reflected;
    ReflectedPolynomialBits(v);
    XorZero(v);
    XorZero(Reflected(v));
  }

  lemma ReflectedPolynomialBits(v: bv32)
    ensures Reflected(v ^ 0x04c11db7) == Reflected(v) ^ 0xedb88320
  {}

  lemma XorZero(v: bv32)
    ensures Xor(v, 0) == v
  {}

  lemma ReflectedTop(v: bv32)
    ensures HighBit(v) <==> LowBit(Reflected(v))
  {}

  /** Doubling and halving are the same step seen from the two ends. */
  lemma DoubleIsHalve(v: bv32)
    ensures Reflected(Double(v)) == Halve(Reflected(v))
  {
    hide Reflected, Xor, ShiftUp, ShiftLow, HighBit, LowBit;
    ReflectedTop(v);
    ReflectedShift(v);
    ReflectedPolynomial(ShiftUp(v), HighBit(v));
  }

  function Doubled(v: bv32, n: nat): bv32 {
    if n == 0 then v else Double(Doubled(v, n - 1))
  }

  /** The value the loops start from, before the byte's eight turns. */
  function Begun(x: Byte): bv32 {
    Reflected(x as bv32)
  }

  /** Eight turns, reflected: the entry. */
  lemma EntryReached(x: Byte)
    ensures Reflected(Doubled(Begun(x), 8)) == Entry(x)
  {
    hide Reflected, Double, Halve;
    var v := Begun(x);
    ReflectedTwice(x as bv32);
    DoubleIsHalve(Doubled(v, 0));
    DoubleIsHalve(Doubled(v, 1));
    DoubleIsHalve(Doubled(v, 2));
    DoubleIsHalve(Doubled(v, 3));
    DoubleIsHalve(Doubled(v, 4));
    DoubleIsHalve(Doubled(v, 5));
    DoubleIsHalve(Doubled(v, 6));
    DoubleIsHalve(Doubled(v, 7));
  }

  /** A byte as an index. */
  function Index(x: Byte): (i: nat)
    ensures i < 256
  {
    (if x & 1 == 0 then 0 else 1) + (if x & 2 == 0 then 0 else 2) + (if x & 4 == 0 then 0 else 4) + (if x & 8 == 0 then 0 else 8) +
    (if x & 16 == 0 then 0 else 16) + (if x & 32 == 0 then 0 else 32) + (if x & 64 == 0 then 0 else 64) + (if x & 128 == 0 then 0 else 128)
  }

  lemma IndexNext(x: Byte)
    requires x < 255
    ensures Index(x + 1) == Index(x) + 1
  {}

  lemma IndexInjective(x: Byte, y: Byte)
    requires Index(x) == Index(y)
    ensures x == y
  {}

  lemma IndexEnds(x: Byte)
    ensures Index(0) == 0 && (Index(x) == 255 ==> x == 255)
  {}

  /** The table that initial_crc32_table builds. */
  ghost predicate Filled(table: array<bv32>)
    reads table
  {
    table.Length == 256 && forall x: Byte :: table[Index(x)] == Entry(x)
  }

  lemma BegunIs(x: Byte)
    ensures Down(Reflected(x as bv32), 24) << 24 == Begun(x)
  {
    BegunBits(x as bv32);
  }

  lemma BegunBits(v: bv32)
    requires v < 256
    ensures (Reflected(v) >> 24) << 24 == Reflected(v)
  {}

  /** One entry: eight turns between two reflections. */
  method FillEntry(table: array<bv32>, i: nat, x: Byte)
    requires table.Length == 256 && i == Index(x)
    modifies table
    ensures table[i] == Entry(x)
    ensures forall k :: 0 <= k < 256 && k != i ==> table[k] == old(table[k])
  {
    hide Reflected, Down, Begun, Entry, Index, Double;
    var t := Reflect(x as bv32, 8);
    table[i] := t << 24;
    BegunIs(x);
    for j := 0 to 8
      invariant table[i] == Doubled(Begun(x), j)
      invariant forall k :: 0 <= k < 256 && k != i ==> table[k] == old(table[k])
    {
      var t1 := ShiftUp(table[i]);
      var t2 := if HighBit(table[i]) then 0x04c11db7 else 0;
      DoubleIs(table[i], t1, t2);
      table[i] := Xor(t1, t2);
    }
    EntryReached(x);
    DownNone(Reflected(table[i]));
    table[i] := Reflect(table[i], 32);
  }

  lemma DoubleIs(v: bv32, t1: bv32, t2: bv32)
    requires t1 == ShiftUp(v) && t2 == if HighBit(v) then 0x04c11db7 else 0
    ensures Double(v) == Xor(t1, t2)
  {
    hide Xor, ShiftUp, HighBit;
  }

  method InitialCrc32Table(table: array<bv32>)
    requires table.Length == 256
    modifies table
    ensures Filled(table)
  {
    hide Entry, Index;
    var x: Byte := 0;
    IndexEnds(0);
    for i := 0 to 256
      invariant i < 256 ==> i == Index(x)
      invariant forall y: Byte :: Index(y) < i ==> table[Index(y)] == Entry(y)
    {
      FillEntry(table, i, x);
      forall y: Byte | Index(y) == i
        ensures y == x
      {
        IndexInjective(x, y);
      }
      if i < 255 {
        NotLast(x);
        IndexNext(x);
      }
      x := x + 1;
    }
  }

  lemma NotLast(x: Byte)
    requires Index(x) < 255
    ensures x < 255
  {}

  // ----- the checksum

  /** One turn of the loop of generate_crc32. */
  function Fed(s: bv32, c: Byte): bv32 {
    Xor(Appended(s, c), Entry(TopByte(s)))
  }

  function Appended(s: bv32, c: Byte): bv32 {
    (s << 8) | (c as bv32)
  }

  function TopByte(s: bv32): Byte {
    (s >> 24) as Byte
  }

  function Crc(s: bv32, data: seq<Byte>): bv32
    decreases |data|
  {
    if data == [] then s else Crc(Fed(s, data[0]), data[1..])
  }

  lemma {:induction false} CrcAppend(s: bv32, a: seq<Byte>, b: seq<Byte>)
    ensures Crc(s, a + b) == Crc(Crc(s, a), b)
    decreases |a|
  {
    hide Fed;
    if a == [] {
      assert a + b == b;
    } else {
      assert (a + b)[0] == a[0] && (a + b)[1..] == a[1..] + b;
      CrcAppend(Fed(s, a[0]), a[1..], b);
    }
  }

  method GenerateCrc32(table: array<bv32>, buf: array<Byte>, len: nat) returns (crc32: bv32)
    requires Filled(table) && len <= buf.Length
    ensures crc32 == Crc(0, buf[..len])
  {
    hide Xor, Appended, TopByte, Index, Entry;
    crc32 := 0;
    var counts, left := 0, len;
    while left != 0
      invariant counts + left == len
      invariant crc32 == Crc(0, buf[..counts])
    {
      var oldCrc := table[Index(TopByte(crc32))];
      CrcAppend(0, buf[..counts], [buf[counts]]);
      assert buf[..counts + 1] == buf[..counts] + [buf[counts]];
      crc32 := Xor(Appended(crc32, buf[counts]), oldCrc);
      counts, left := counts + 1, left - 1;
    }
    assert buf[..len] == buf[..counts];
  }
}
