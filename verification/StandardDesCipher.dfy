/** Enciphering and deciphering of one block, and triple DES, by the bit-level engine (src/leo_standard_des_crypto.c:76-286). */
module StandardDesCipher {
  import opened Bits
  import opened DesKeySpec
  import opened StandardDesSpec
  import opened StandardDes
  import opened Feistel

  /** FIPS 46-3, "Enciphering": the initial permutation, sixteen rounds, the sides changed once more, the inverse permutation. */
  function Cipher(block: Block, ks: seq<RoundKey>): Block {
    var p := Rounds(F, ks, IpHi(block), IpLo(block));
    InvIp(p.1, p.0)
  }

  // ----- the operations

  method Ip(state: array<bv32>, input: array<Byte>)
    requires state.Length == 2 && input.Length >= 8
    modifies state
    ensures state[0] == IpHi(input[..8]) && state[1] == IpLo(input[..8])
  {
    hide IpHi, IpLo;
    state[0] := IpHi(input[..8]);
    state[1] := IpLo(input[..8]);
  }

  method InvIpInto(state: array<bv32>, out: array<Byte>)
    requires state.Length == 2 && out.Length >= 8
    modifies out
    ensures out[..8] == InvIp(state[0], state[1])
    ensures out[8..] == old(out[8..])
  {
    hide InvIp, Gather;
    var b := InvIp(state[0], state[1]);
    forall i | 0 <= i < 8 {
      out[i] := b[i];
    }
  }

  /** The cipher function, on the local array lrgstate. */
  method CipherFunction(state: bv32, key: array2<Byte>, idx: nat, ghost k: RoundKey) returns (r: bv32)
    requires idx < key.Length0 && key.Length1 == 6 && RowIs(key, idx, k)
    ensures r == F(state, k)
  {
    hide Expanded, Substituted, Pbox;
    var e := Expanded(state);
    var lrgstate := new Byte[6](i requires 0 <= i < 6 => e[i]);
    lrgstate[0] := lrgstate[0] ^ key[idx, 0];
    lrgstate[1] := lrgstate[1] ^ key[idx, 1];
    lrgstate[2] := lrgstate[2] ^ key[idx, 2];
    lrgstate[3] := lrgstate[3] ^ key[idx, 3];
    lrgstate[4] := lrgstate[4] ^ key[idx, 4];
    lrgstate[5] := lrgstate[5] ^ key[idx, 5];
    assert lrgstate[..] == XorKey(e, k);
    r := Pbox(Substituted(lrgstate[..]));
  }

  method DesCrypt(input: array<Byte>, out: array<Byte>, key: array2<Byte>, ghost ks: seq<RoundKey>)
    requires input.Length >= 8 && out.Length >= 8 && Holds(key, ks)
    modifies out
    ensures out[..8] == Cipher(old(input[..8]), ks)
    ensures out[8..] == old(out[8..])
  {
    hide IpHi, IpLo, InvIp, Gather, F, RowIs;
    var state := new bv32[2];
    Ip(state, input);
    ghost var hi, lo := state[0], state[1];
    for idx := 0 to 15
      invariant input[..] == old(input[..]) && out[..] == old(out[..]) && Holds(key, ks)
      invariant Rounds(F, ks[..idx], hi, lo) == (state[0], state[1])
    {
      var t := state[1];
      var v := Half(state, key, idx, ks, hi, lo);
      state[1] := v;
      state[0] := t;
    }
    var v := Half(state, key, 15, ks, hi, lo);
    assert ks == ks[..16];
    state[0] := v;
    InvIpInto(state, out);
  }

  lemma OneRound(ks: seq<RoundKey>, idx: nat, hi: bv32, lo: bv32)
    requires idx < |ks|
    ensures var p := Rounds(F, ks[..idx], hi, lo); Rounds(F, ks[..idx + 1], hi, lo) == (p.1, F(p.1, ks[idx]) ^ p.0)
  {
    hide F;
    var p := Rounds(F, ks[..idx], hi, lo);
    RoundsLast(F, ks[..idx], ks[idx], hi, lo);
    assert ks[..idx + 1] == ks[..idx] + [ks[idx]];
    SwapXor(p.0, F(p.1, ks[idx]));
  }

  /** The new half of round `idx`. */
  method Half(state: array<bv32>, key: array2<Byte>, idx: nat, ghost ks: seq<RoundKey>, ghost hi: bv32, ghost lo: bv32) returns (v: bv32)
    requires state.Length == 2 && idx < 16 && Holds(key, ks)
    requires Rounds(F, ks[..idx], hi, lo) == (state[0], state[1])
    ensures Rounds(F, ks[..idx + 1], hi, lo) == (state[1], v)
  {
    hide F, RowIs, Rounds;
    OneRound(ks, idx, hi, lo);
    v := CipherFunction(state[1], key, idx, ks[idx]);
    v := v ^ state[0];
  }

  lemma SwapXor(x: bv32, y: bv32)
    ensures x ^ y == y ^ x
  {}

  // ----- deciphering undoes enciphering

  lemma IpOfInvIp(hi: bv32, lo: bv32)
    ensures IpHi(InvIp(hi, lo)) == hi && IpLo(InvIp(hi, lo)) == lo
  {}

  lemma FirstOfIp(b: Block)
    ensures var hi, lo := IpHi(b), IpLo(b);
      && Gather(hi, lo, 7, 15, 23, 31) == b[0] && Gather(hi, lo, 6, 14, 22, 30) == b[1]
      && Gather(hi, lo, 5, 13, 21, 29) == b[2] && Gather(hi, lo, 4, 12, 20, 28) == b[3]
  {}

  lemma LastOfIp(b: Block)
    ensures var hi, lo := IpHi(b), IpLo(b);
      && Gather(hi, lo, 3, 11, 19, 27) == b[4] && Gather(hi, lo, 2, 10, 18, 26) == b[5]
      && Gather(hi, lo, 1, 9, 17, 25) == b[6] && Gather(hi, lo, 0, 8, 16, 24) == b[7]
  {}

  lemma InvIpOfIp(b: Block)
    ensures InvIp(IpHi(b), IpLo(b)) == b
  {
    hide IpHi, IpLo, Gather, InvIp;
    FirstOfIp(b);
    LastOfIp(b);
    var c := InvIp(IpHi(b), IpLo(b));
    assert c[0] == b[0] && c[1] == b[1] && c[2] == b[2] && c[3] == b[3] && c[4] == b[4] && c[5] == b[5] && c[6] == b[6] && c[7] == b[7];
  }

  /** For an arbitrary schedule: its reverse undoes it. */
  lemma CipherUndone(block: Block, ks: seq<RoundKey>)
    ensures Cipher(Cipher(block, ks), Reversed(ks)) == block
  {
    hide IpHi, IpLo, InvIp, Gather, F, Rounds;
    var p := Rounds(F, ks, IpHi(block), IpLo(block));
    IpOfInvIp(p.1, p.0);
    ReversedUndoes(F, ks, IpHi(block), IpLo(block));
    InvIpOfIp(block);
  }

  /** The schedule made for deciphering is the other one in reverse. */
  lemma DecryptionReverses(key: Block)
    ensures ScheduleFor(key, DECRYPT) == Reversed(ScheduleFor(key, ENCRYPT))
    ensures ScheduleFor(key, ENCRYPT) == Reversed(ScheduleFor(key, DECRYPT))
  {
    hide KeyOfRound;
    assert ScheduleFor(key, DECRYPT) == Reversed(ScheduleFor(key, ENCRYPT));
    assert ScheduleFor(key, ENCRYPT) == Reversed(ScheduleFor(key, DECRYPT));
  }

  lemma Deciphered(block: Block, key: Block)
    ensures Cipher(Cipher(block, ScheduleFor(key, ENCRYPT)), ScheduleFor(key, DECRYPT)) == block
    ensures Cipher(Cipher(block, ScheduleFor(key, DECRYPT)), ScheduleFor(key, ENCRYPT)) == block
  {
    hide Cipher, ScheduleFor;
    DecryptionReverses(key);
    CipherUndone(block, ScheduleFor(key, ENCRYPT));
    CipherUndone(block, ScheduleFor(key, DECRYPT));
  }

  // ----- the complementation property

  function NotByte(x: Byte): Byte {
    !x
  }

  function NotWord(x: bv32): bv32 {
    !x
  }

  function NotBytes(s: seq<Byte>): (r: seq<Byte>)
    ensures |r| == |s| && forall i :: 0 <= i < |s| ==> r[i] == NotByte(s[i])
  {
    seq(|s|, i requires 0 <= i < |s| => NotByte(s[i]))
  }

  lemma NotIp(b: Block)
    ensures IpHi(NotBytes(b)) == NotWord(IpHi(b)) && IpLo(NotBytes(b)) == NotWord(IpLo(b))
  {}

  lemma NotBitR(x: bv32, b: bv8, c: bv8)
    requires b < 32 && c < 8
    ensures BitR(!x, b, c) == BitR(x, b, c) ^ (1 << c) && BitR(x, b, c) & !(1 << c) == 0
  {
    assert ((!x >> (31 - b)) & 1) == ((x >> (31 - b)) & 1) ^ 1;
  }

  lemma NotEight(p: Byte, q: Byte, r: Byte, s: Byte, t: Byte, u: Byte, v: Byte, w: Byte)
    requires p & !0x80 == 0 && q & !0x40 == 0 && r & !0x20 == 0 && s & !0x10 == 0
    requires t & !8 == 0 && u & !4 == 0 && v & !2 == 0 && w & !1 == 0
    ensures (p ^ 0x80) | (q ^ 0x40) | (r ^ 0x20) | (s ^ 0x10) | (t ^ 8) | (u ^ 4) | (v ^ 2) | (w ^ 1) == !(p | q | r | s | t | u | v | w)
  {}

  lemma NotGather(hi: bv32, lo: bv32, a: bv8, b: bv8, c: bv8, d: bv8)
    requires a < 32 && b < 32 && c < 32 && d < 32
    ensures Gather(!hi, !lo, a, b, c, d) == NotByte(Gather(hi, lo, a, b, c, d))
  {
    hide BitR;
    NotBitR(lo, a, 7);
    NotBitR(hi, a, 6);
    NotBitR(lo, b, 5);
    NotBitR(hi, b, 4);
    NotBitR(lo, c, 3);
    NotBitR(hi, c, 2);
    NotBitR(lo, d, 1);
    NotBitR(hi, d, 0);
    NotEight(BitR(lo, a, 7), BitR(hi, a, 6), BitR(lo, b, 5), BitR(hi, b, 4), BitR(lo, c, 3), BitR(hi, c, 2), BitR(lo, d, 1), BitR(hi, d, 0));
  }

  lemma NotInvIp(hi: bv32, lo: bv32)
    ensures InvIp(NotWord(hi), NotWord(lo)) == NotBytes(InvIp(hi, lo))
  {
    hide Gather, NotByte, NotBytes, InvIp;
    NotGather(hi, lo, 7, 15, 23, 31);
    NotGather(hi, lo, 6, 14, 22, 30);
    NotGather(hi, lo, 5, 13, 21, 29);
    NotGather(hi, lo, 4, 12, 20, 28);
    NotGather(hi, lo, 3, 11, 19, 27);
    NotGather(hi, lo, 2, 10, 18, 26);
    NotGather(hi, lo, 1, 9, 17, 25);
    NotGather(hi, lo, 0, 8, 16, 24);
    var b, n := InvIp(NotWord(hi), NotWord(lo)), NotBytes(InvIp(hi, lo));
    assert b[0] == n[0] && b[1] == n[1] && b[2] == n[2] && b[3] == n[3] && b[4] == n[4] && b[5] == n[5] && b[6] == n[6] && b[7] == n[7];
  }

  lemma NotExpand1(x: bv32)
    ensures Expand1(!x) == !Expand1(x) & 0xffffff00
  {}

  lemma NotExpand2(x: bv32)
    ensures Expand2(!x) == !Expand2(x) & 0xffffff00
  {}

  lemma NotTopBytes(t: bv32, u: bv32)
    requires t == !u & 0xffffff00
    ensures ByteOf(t, 24) == NotByte(ByteOf(u, 24)) && ByteOf(t, 16) == NotByte(ByteOf(u, 16)) && ByteOf(t, 8) == NotByte(ByteOf(u, 8))
  {}

  lemma NotExpanded(x: bv32)
    ensures Expanded(!x) == NotBytes(Expanded(x))
  {
    hide Expand1, Expand2, NotByte, NotBytes, TopBytes, ByteOf;
    NotExpand1(x);
    NotExpand2(x);
    NotTopBytes(Expand1(!x), Expand1(x));
    NotTopBytes(Expand2(!x), Expand2(x));
    var e, n := Expanded(!x), NotBytes(Expanded(x));
    assert e[0] == n[0] && e[1] == n[1] && e[2] == n[2] && e[3] == n[3] && e[4] == n[4] && e[5] == n[5];
  }

  lemma NotXorNot(x: Byte, y: Byte)
    ensures XorByte(NotByte(x), NotByte(y)) == XorByte(x, y)
  {}

  lemma NotXorKey(e: RoundKey, k: RoundKey)
    ensures XorKey(NotBytes(e), NotBytes(k)) == XorKey(e, k)
  {
    hide XorByte, XorKey, NotByte, NotBytes;
    NotXorNot(e[0], k[0]);
    NotXorNot(e[1], k[1]);
    NotXorNot(e[2], k[2]);
    NotXorNot(e[3], k[3]);
    NotXorNot(e[4], k[4]);
    NotXorNot(e[5], k[5]);
    var x, y := XorKey(NotBytes(e), NotBytes(k)), XorKey(e, k);
    assert x[0] == y[0] && x[1] == y[1] && x[2] == y[2] && x[3] == y[3] && x[4] == y[4] && x[5] == y[5];
  }

  /** The two complements cancel where the key is added. */
  lemma NotBoth(x: bv32, k: RoundKey)
    ensures F(!x, NotBytes(k)) == F(x, k)
  {
    hide Expanded, XorKey, XorByte, Substituted, Pbox, NotByte, NotBytes;
    NotExpanded(x);
    NotXorKey(Expanded(x), k);
  }

  lemma NotByteBit(x: Byte, i: bv8)
    requires i < 8
    ensures ByteBit(NotByte(x), i) == !ByteBit(x, i)
  {}

  lemma NotByteAt(key: Block, k: bv8)
    ensures ByteAt(NotBytes(key), k) == NotByte(ByteAt(key, k))
  {}

  lemma NotKeyBit(key: Block, b: bv8)
    requires b < 64
    ensures KeyBit(NotBytes(key), b) == !KeyBit(key, b)
  {
    hide ByteBit, ByteAt, NotByte, NotBytes;
    NotByteAt(key, b >> 3);
    NotByteBit(ByteAt(key, b >> 3), b & 7);
  }

  /** Every bit of a round key is a copied bit of the key. */
  lemma NotRoundBit(key: Block, n: nat, j: bv8)
    requires n < 16 && j < 48
    ensures RoundBit(NotBytes(key), n, j) == !RoundBit(key, n, j)
  {
    hide KeyBit, Compress, PermC, PermD, Turned, TotalShift;
    var q, t := Compress(j), TotalShift(n + 1);
    NotKeyBit(key, if q < 28 then PermC(Turned(q, t)) else PermD(Turned(q - 28, t)));
  }

  lemma NotByte8(f: Bits48, g: Bits48, p: bv8)
    requires p <= 40 && forall j: bv8 :: j < 48 ==> g(j) == !f(j)
    ensures Byte8(g, p) == NotByte(Byte8(f, p))
  {}

  lemma NotBytesOf(f: Bits48, g: Bits48)
    requires forall j: bv8 :: j < 48 ==> g(j) == !f(j)
    ensures BytesOf(g) == NotBytes(BytesOf(f))
  {
    hide Byte8, NotByte;
    NotByte8(f, g, 0);
    NotByte8(f, g, 8);
    NotByte8(f, g, 16);
    NotByte8(f, g, 24);
    NotByte8(f, g, 32);
    NotByte8(f, g, 40);
  }

  lemma NotKeyOfRound(key: Block, n: nat)
    requires n < 16
    ensures KeyOfRound(NotBytes(key), n) == NotBytes(KeyOfRound(key, n))
  {
    hide RoundBit, BytesOf, NotByte, NotBytes;
    var f, g := RoundBits(key, n), RoundBits(NotBytes(key), n);
    forall j: bv8 | j < 48
      ensures g(j) == !f(j)
    {
      NotRoundBit(key, n, j);
    }
    NotBytesOf(f, g);
  }

  lemma NotSchedule(key: Block, mode: Mode, i: nat)
    requires i < 16
    ensures ScheduleFor(NotBytes(key), mode)[i] == NotBytes(ScheduleFor(key, mode)[i])
  {
    hide KeyOfRound, NotByte, NotBytes;
    NotKeyOfRound(key, ToGen(mode, i));
  }

  lemma NotRounds(ks: seq<RoundKey>, js: seq<RoundKey>, l: bv32, r: bv32)
    requires |ks| == |js| && forall i :: 0 <= i < |ks| ==> js[i] == NotBytes(ks[i])
    ensures var p := Rounds(F, ks, l, r); Rounds(F, js, NotWord(l), NotWord(r)) == (NotWord(p.0), NotWord(p.1))
  {
    hide F, Rounds, NotByte, NotBytes;
    forall i, x | 0 <= i < |ks|
      ensures F(!x, js[i]) == F(x, ks[i])
    {
      NotBoth(x, ks[i]);
    }
    ComplementedRounds(F, ks, js, l, r);
  }

  /** FIPS 46-3's complementation: all keys, all blocks, both modes. */
  lemma Complementation(block: Block, key: Block, mode: Mode)
    ensures Cipher(NotBytes(block), ScheduleFor(NotBytes(key), mode)) == NotBytes(Cipher(block, ScheduleFor(key, mode)))
  {
    hide IpHi, IpLo, InvIp, Gather, F, Rounds, ScheduleFor, NotWord, NotByte, NotBytes;
    var ks, js := ScheduleFor(key, mode), ScheduleFor(NotBytes(key), mode);
    forall i | 0 <= i < 16
      ensures js[i] == NotBytes(ks[i])
    {
      NotSchedule(key, mode, i);
    }
    NotIp(block);
    NotRounds(ks, js, IpHi(block), IpLo(block));
    var p := Rounds(F, ks, IpHi(block), IpLo(block));
    NotInvIp(p.1, p.0);
  }
}
