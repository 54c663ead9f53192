/** des_crypt of the table-driven engine, and why it is the cipher of the standard (src/leo_des_crypto.c:516-605). */
module FastDes {
  import opened DesTables
  import opened Bits
  import opened DesKeySpec
  import opened StandardDesSpec
  import opened StandardDes
  import opened StandardDesCipher
  import opened Feistel
  import opened FastDesSpec
  import opened FastRound
  import opened FastDesKeys

  // ----- one block, as a function

  function FastCipher(block: Block, ps: seq<KeyPair>): Block {
    var p := Rounds(FastF, ps, TransposeL(block), TransposeR(block));
    Written(FinalL(p.0, p.1), FinalR(p.0, p.1))
  }

  function PackedAll(ks: seq<RoundKey>): (ps: seq<KeyPair>)
    ensures |ps| == |ks| && forall i :: 0 <= i < |ks| ==> ps[i] == Packed(ks[i])
  {
    seq(|ks|, i requires 0 <= i < |ks| => Packed(ks[i]))
  }

  /** The table-driven engine computes the cipher of the standard: all blocks, all round keys. */
  lemma FastIsStandard(block: Block, ks: seq<RoundKey>)
    ensures FastCipher(block, PackedAll(ks)) == Cipher(block, ks)
  {
    hide FastF, F, Packed, TransposeL, TransposeR, IpHi, IpLo, FinalL, FinalR, Written, InvIp, Gather, ByteOf, PackedAll, Rounds;
    var ps := PackedAll(ks);
    forall i, x | 0 <= i < |ks|
      ensures FastF(x, ps[i]) == F(x, ks[i])
    {
      FastFIsF(x, ks[i]);
    }
    TransposeIsIp(block);
    SameRounds(FastF, ps, F, ks, IpHi(block), IpLo(block));
    var p := Rounds(F, ks, IpHi(block), IpLo(block));
    FinalIsInvIp(p.0, p.1);
  }

  // ----- one block, in place

  /** Adding eight words one after the other is adding their sum. */
  lemma XorAll(l: bv32, a: bv32, b: bv32, c: bv32, d: bv32, e: bv32, f: bv32, g: bv32, h: bv32)
    ensures Xor(Xor(Xor(Xor(Xor(Xor(Xor(Xor(l, a), b), c), d), e), f), g), h) == Xor(l, Sum8(a, b, c, d, e, f, g, h))
  {
    hide Xor;
    var s2 := Xor(a, b);
    var s3 := Xor(s2, c);
    var s4 := Xor(s3, d);
    var s5 := Xor(s4, e);
    var s6 := Xor(s5, f);
    XorAssoc(l, a, b);
    XorAssoc(l, s2, c);
    XorAssoc(l, s3, d);
    XorAssoc(l, s4, e);
    XorAssoc(l, s5, f);
    XorAssoc(l, s6, g);
    XorAssoc(l, Xor(s6, g), h);
  }

  /** The new right half of a round. */
  method Round(l: bv32, r: bv32, keys: array2<bv32>, i: nat) returns (v: bv32)
    requires i < keys.Length0 && keys.Length1 == 2
    ensures v == Xor(l, FastF(r, (keys[i, 0], keys[i, 1])))
  {
    hide Sum8, Xor, Rol1, Ror4, Six, Psbox0, Psbox1, Psbox2, Psbox3, Psbox4, Psbox5, Psbox6, Psbox7;
    var x1 := Rol1(r);
    var x2 := Xor(Ror4(x1), keys[i, 0]);
    x1 := Xor(x1, keys[i, 1]);
    XorAll(l, Psbox7(Six(x1, 0)), Psbox5(Six(x1, 8)), Psbox3(Six(x1, 16)), Psbox1(Six(x1, 24)),
           Psbox6(Six(x2, 0)), Psbox4(Six(x2, 8)), Psbox2(Six(x2, 16)), Psbox0(Six(x2, 24)));
    v := Xor(Xor(Xor(Xor(l, Psbox7(Six(x1, 0))), Psbox5(Six(x1, 8))), Psbox3(Six(x1, 16))), Psbox1(Six(x1, 24)));
    v := Xor(Xor(Xor(Xor(v, Psbox6(Six(x2, 0))), Psbox4(Six(x2, 8))), Psbox2(Six(x2, 16))), Psbox0(Six(x2, 24)));
  }

  /** The packed keys in the order of use. */
  function PairsFor(key: Block, mode: Mode): (ps: seq<KeyPair>)
    ensures |ps| == 16
  {
    PackedAll(ScheduleFor(key, mode))
  }

  lemma PairAt(key: Block, i: nat)
    requires i < 16
    ensures PairsFor(key, ENCRYPT)[i] == Packed(KeyOfRound(key, i)) == PairsFor(key, DECRYPT)[15 - i]
  {
    hide Packed, KeyOfRound;
  }

  lemma OneFastRound(ps: seq<KeyPair>, i: nat, hi: bv32, lo: bv32)
    requires i < |ps|
    ensures var p := Rounds(FastF, ps[..i], hi, lo); Rounds(FastF, ps[..i + 1], hi, lo) == (p.1, Xor(p.0, FastF(p.1, ps[i])))
  {
    hide FastF;
    RoundsLast(FastF, ps[..i], ps[i], hi, lo);
    assert ps[..i + 1] == ps[..i] + [ps[i]];
  }

  /** The sixteen rounds, with the keys forwards or backwards. */
  method AllRounds(hi: bv32, lo: bv32, flag: bv32, keys: array2<bv32>, ghost key: Block) returns (l: bv32, r: bv32)
    requires Keyed(keys, key)
    ensures (l, r) == Rounds(FastF, PairsFor(key, if flag == 0 then ENCRYPT else DECRYPT), hi, lo)
  {
    hide FastF, Packed, KeyOfRound, PairsFor;
    l, r := hi, lo;
    ghost var ps := PairsFor(key, if flag == 0 then ENCRYPT else DECRYPT);
    if flag == 0 {
      for i := 0 to 16
        invariant (l, r) == Rounds(FastF, ps[..i], hi, lo)
      {
        PairAt(key, i);
        OneFastRound(ps, i, hi, lo);
        var v := Round(l, r, keys, i);
        l := r;
        r := v;
      }
    } else {
      for i := 16 downto 0
        invariant (l, r) == Rounds(FastF, ps[..16 - i], hi, lo)
      {
        PairAt(key, i);
        OneFastRound(ps, 15 - i, hi, lo);
        var v := Round(l, r, keys, i);
        l := r;
        r := v;
      }
    }
    assert ps[..16] == ps;
  }

  /** Bytes `at` to `at + 7`. */
  function BlockAt(s: seq<Byte>, at: nat): Block
    requires at + 8 <= |s|
  {
    s[at..at + 8]
  }

  /** `s` with the block at `at` replaced. */
  function WithBlock(s: seq<Byte>, at: nat, b: Block): (t: seq<Byte>)
    requires at + 8 <= |s|
    ensures |t| == |s|
  {
    s[..at] + b + s[at + 8..]
  }

  method PutBlock(buf: array<Byte>, at: nat, b: Block)
    requires at + 8 <= buf.Length
    modifies buf
    ensures buf[..] == WithBlock(old(buf[..]), at, b)
  {
    forall i | 0 <= i < 8 {
      buf[at + i] := b[i];
    }
  }

  /** des_crypt: enciphers (flag 0) or deciphers the block at `at` in place, exactly as the standard says. */
  method DesCrypt(buf: array<Byte>, at: nat, flag: bv32, keys: array2<bv32>, ghost key: Block)
    requires at + 8 <= buf.Length && Keyed(keys, key)
    modifies buf
    ensures flag == 0 ==> buf[..] == WithBlock(old(buf[..]), at, Cipher(BlockAt(old(buf[..]), at), ScheduleFor(key, ENCRYPT)))
    ensures flag != 0 ==> buf[..] == WithBlock(old(buf[..]), at, Cipher(BlockAt(old(buf[..]), at), ScheduleFor(key, DECRYPT)))
  {
    hide FastF, TransposeL, TransposeR, FinalL, FinalR, Written, ByteOf, Cipher, ScheduleFor, Packed, KeyOfRound, WithBlock;
    ghost var block := BlockAt(buf[..], at);
    var hi, lo := TransposeL(buf[at..at + 8]), TransposeR(buf[at..at + 8]);
    var l, r := AllRounds(hi, lo, flag, keys, key);
    var l2, r2 := FinalL(l, r), FinalR(l, r);
    FastIsStandard(block, ScheduleFor(key, if flag == 0 then ENCRYPT else DECRYPT));
    PutBlock(buf, at, Written(l2, r2));
  }
}
