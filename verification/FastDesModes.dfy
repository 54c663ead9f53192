/** ecb_crypt and cbc_crypt (src/leo_des_crypto.c:607-676). */
module FastDesModes {
  import opened Bits
  import opened DesKeySpec
  import opened StandardDes
  import opened StandardDesCipher
  import opened CipherModes
  import opened FastDesKeys
  import opened FastDes

  const DES_ENCRYPT: bv32 := 0
  const DES_DECRYPT: bv32 := 1
  const DES_DIRMASK: bv32 := 1
  const DES_DEVMASK: bv32 := 2
  const DES_SW: bv32 := 2
  const DESERR_NONE := 0
  const DESERR_NOHWDEVICE := 1

  /** DES with a key, one way round. */
  function Des(key: Block, mode: Mode): BlockCipher {
    b => Cipher(b, ScheduleFor(key, mode))
  }

  lemma DesUndoes(key: Block)
    ensures Undoes(Des(key, DECRYPT), Des(key, ENCRYPT)) && Undoes(Des(key, ENCRYPT), Des(key, DECRYPT))
  {
    hide Cipher, ScheduleFor;
    forall b: Block
      ensures Des(key, DECRYPT)(Des(key, ENCRYPT)(b)) == b && Des(key, ENCRYPT)(Des(key, DECRYPT)(b)) == b
    {
      Deciphered(b, key);
    }
  }

  /** (len + 7) & ~7 in 32 bits: a length within seven of the largest wraps around to nothing. */
  function Rounded(len: nat): (n: nat)
    requires len < 0x1_0000_0000
    ensures n % 8 == 0 && (len <= 0xffff_fff8 ==> len <= n < len + 8) && (len > 0xffff_fff8 ==> n == 0)
  {
    (len + 7) % 0x1_0000_0000 / 8 * 8
  }

  /** Only the block at `at` changed, and now it is `b`. */
  twostate predicate BlockSet(buf: array<Byte>, at: nat, b: Block)
    requires at + 8 <= buf.Length
    reads buf
  {
    buf[..at] == old(buf[..at]) && buf[at..at + 8] == b && buf[at + 8..] == old(buf[at + 8..])
  }

  lemma WithBlockParts(s: seq<Byte>, at: nat, b: Block)
    requires at + 8 <= |s|
    ensures var t := WithBlock(s, at, b); t[..at] == s[..at] && t[at..at + 8] == b && t[at + 8..] == s[at + 8..]
  {}

  /** des_crypt on the block at `at`. */
  method CryptAt(buf: array<Byte>, at: nat, flag: bv32, keys: array2<bv32>, ghost key: Block)
    requires at + 8 <= buf.Length && Keyed(keys, key)
    modifies buf
    ensures BlockSet(buf, at, Des(key, if flag == 0 then ENCRYPT else DECRYPT)(old(buf[at..at + 8])))
  {
    hide Cipher, ScheduleFor, Keyed, WithBlock;
    ghost var s := buf[..];
    WithBlockParts(s, at, Cipher(BlockAt(s, at), ScheduleFor(key, if flag == 0 then ENCRYPT else DECRYPT)));
    FastDes.DesCrypt(buf, at, flag, keys, key);
    assert s[at..at + 8] == old(buf[at..at + 8]);
    Parts(buf[..], buf, at);
  }

  lemma Parts(s: seq<Byte>, buf: array<Byte>, at: nat)
    requires at + 8 <= buf.Length && s == buf[..]
    ensures s[..at] == buf[..at] && s[at..at + 8] == buf[at..at + 8] && s[at + 8..] == buf[at + 8..]
  {}

  // ----- ecb_crypt

  /** Where the loop stands: the blocks before `at` are done, the rest is as it was. */
  ghost predicate EcbUpTo(t: seq<Byte>, s: seq<Byte>, at: nat, e: BlockCipher) {
    |t| == |s| && at <= |s| && at % 8 == 0 && t[..at] == Ecb(s[..at], e) && t[at..] == s[at..]
  }

  lemma EcbStep(t: seq<Byte>, t': seq<Byte>, s: seq<Byte>, at: nat, e: BlockCipher)
    requires EcbUpTo(t, s, at, e) && |t'| == |t| && at + 8 <= |s|
    requires t'[..at] == t[..at] && t'[at..at + 8] == e(t[at..at + 8]) && t'[at + 8..] == t[at + 8..]
    ensures EcbUpTo(t', s, at + 8, e)
  {
    var b := s[at..at + 8];
    assert t[at..at + 8] == t[at..][..8] == s[at..][..8] == b;
    assert s[..at + 8] == s[..at] + b && b[..8] == b && b[8..] == [];
    EcbAppend(s[..at], b, e);
    assert Ecb(b, e) == e(b) + [] == e(b);
    assert t'[..at + 8] == t'[..at] + t'[at..at + 8];
    assert t'[at + 8..] == t[at..][8..] == s[at..][8..] == s[at + 8..];
  }

  method EcbCrypt(key: Block, buf: array<Byte>, len: nat, mode: bv32, keys: array2<bv32>) returns (status: int)
    requires len < 0x1_0000_0000 && buf.Length >= Rounded(len)
    requires keys.Length0 == 16 && keys.Length1 == 2
    modifies buf, keys
    ensures Keyed(keys, key)
    ensures mode & 1 == 0 ==> buf[..Rounded(len)] == Ecb(old(buf[..Rounded(len)]), Des(key, ENCRYPT))
    ensures mode & 1 != 0 ==> buf[..Rounded(len)] == Ecb(old(buf[..Rounded(len)]), Des(key, DECRYPT))
    ensures buf[Rounded(len)..] == old(buf[Rounded(len)..])
    ensures status == if mode & 2 != 0 then 0 else 1
  {
    hide Keyed, Des, Rounded;
    SetKey(key, keys);
    ghost var s, e := buf[..], Des(key, if mode & 1 == 0 then ENCRYPT else DECRYPT);
    var at, left := 0, Rounded(len);
    while left != 0
      invariant at + left == Rounded(len) && left % 8 == 0 && Keyed(keys, key)
      invariant EcbUpTo(buf[..], s, at, e)
    {
      ghost var t := buf[..];
      Parts(t, buf, at);
      CryptAt(buf, at, mode & DES_DIRMASK, keys, key);
      Parts(buf[..], buf, at);
      EcbStep(t, buf[..], s, at, e);
      at, left := at + 8, left - 8;
    }
    status := if mode & DES_DEVMASK == DES_SW then DESERR_NONE else DESERR_NOHWDEVICE;
  }

  // ----- cbc_crypt

  /** The eight xor assignments on the block at `at`. */
  method XorAt(buf: array<Byte>, at: nat, ivec: array<Byte>)
    requires at + 8 <= buf.Length && ivec.Length == 8 && buf != ivec
    modifies buf
    ensures BlockSet(buf, at, XorBlock(old(buf[at..at + 8]), ivec[..]))
  {
    hide XorByte;
    ghost var x := buf[at..at + 8];
    forall i | 0 <= i < 8 {
      buf[at + i] := XorByte(buf[at + i], ivec[i]);
    }
    assert buf[at..at + 8] == XorBlock(x, ivec[..]);
  }

  /** The eight copies from the block at `at`. */
  method CopyAt(buf: array<Byte>, at: nat, v: array<Byte>)
    requires at + 8 <= buf.Length && v.Length == 8 && buf != v
    modifies v
    ensures v[..] == buf[at..at + 8]
  {
    forall i | 0 <= i < 8 {
      v[i] := buf[at + i];
    }
  }

  /** Where the loops stand: what is before `at` is done and has left `v`, the rest is as it was. */
  ghost predicate CbcUpTo(t: seq<Byte>, v: seq<Byte>, s: seq<Byte>, at: nat, done: Chain) {
    |t| == |s| && at <= |s| && at % 8 == 0 && t[..at] == done.text && v == done.ivec && t[at..] == s[at..]
  }

  lemma EncryptedStep(s: seq<Byte>, at: nat, ivec: Block, e: BlockCipher)
    requires at % 8 == 0 && at + 8 <= |s|
    ensures var p := CbcEncrypted(s[..at], ivec, e);
      var x := e(XorBlock(s[at..at + 8], p.ivec));
      CbcEncrypted(s[..at + 8], ivec, e) == Chain(p.text + x, x)
  {
    hide XorBlock;
    var b := s[at..at + 8];
    assert s[..at + 8] == s[..at] + b && b[..8] == b && b[8..] == [];
    EncryptedInParts(s[..at], b, ivec, e);
    var x: Block := e(XorBlock(b, CbcEncrypted(s[..at], ivec, e).ivec));
    assert x + [] == x;
  }

  lemma DecryptedStep(s: seq<Byte>, at: nat, ivec: Block, d: BlockCipher)
    requires at % 8 == 0 && at + 8 <= |s|
    ensures var p := CbcDecrypted(s[..at], ivec, d);
      CbcDecrypted(s[..at + 8], ivec, d) == Chain(p.text + XorBlock(d(s[at..at + 8]), p.ivec), s[at..at + 8])
  {
    hide XorBlock;
    var b := s[at..at + 8];
    assert s[..at + 8] == s[..at] + b && b[..8] == b && b[8..] == [];
    DecryptedInParts(s[..at], b, ivec, d);
    var x: Block := XorBlock(d(b), CbcDecrypted(s[..at], ivec, d).ivec);
    assert x + [] == x;
  }

  lemma UpToNext(t: seq<Byte>, v: seq<Byte>, t': seq<Byte>, v': seq<Byte>, s: seq<Byte>, at: nat, p: Chain, x: Block)
    requires CbcUpTo(t, v, s, at, p) && |t'| == |t| && at + 8 <= |s|
    requires t'[..at] == t[..at] && t'[at..at + 8] == x && t'[at + 8..] == t[at + 8..] && |v'| == 8
    ensures CbcUpTo(t', v', s, at + 8, Chain(p.text + x, v'))
  {
    assert t'[..at + 8] == t'[..at] + t'[at..at + 8];
    assert t'[at + 8..] == t[at..][8..] == s[at..][8..] == s[at + 8..];
  }

  /** What cbc_crypt makes of whole blocks. */
  function Cbc(s: seq<Byte>, ivec: Block, key: Block, mode: Mode): (c: Chain)
    requires Whole(s)
    ensures |c.text| == |s|
  {
    if mode == ENCRYPT then CbcEncrypted(s, ivec, Des(key, ENCRYPT)) else CbcDecrypted(s, ivec, Des(key, DECRYPT))
  }

  ghost predicate CbcDone(t: seq<Byte>, v: seq<Byte>, s: seq<Byte>, at: nat, ivec: Block, key: Block, mode: Mode) {
    at <= |s| && at % 8 == 0 && CbcUpTo(t, v, s, at, Cbc(s[..at], ivec, key, mode))
  }

  /** Only the block at `at` changed, and now it is `x`. */
  predicate BlockMade(t: seq<Byte>, t': seq<Byte>, at: nat, x: Block) {
    at + 8 <= |t| == |t'| && t'[..at] == t[..at] && t'[at..at + 8] == x && t'[at + 8..] == t[at + 8..]
  }

  lemma EncryptedNext(t: seq<Byte>, v: Block, t': seq<Byte>, v': Block, s: seq<Byte>, at: nat, ivec: Block, key: Block)
    requires BlockMade(t, t', at, v') && v' == Des(key, ENCRYPT)(XorBlock(t[at..at + 8], v))
    requires CbcDone(t, v, s, at, ivec, key, ENCRYPT)
    ensures CbcDone(t', v', s, at + 8, ivec, key, ENCRYPT)
  {
    hide Des, XorBlock;
    assert s[at..at + 8] == s[at..][..8] == t[at..][..8] == t[at..at + 8];
    EncryptedStep(s, at, ivec, Des(key, ENCRYPT));
    UpToNext(t, v, t', v', s, at, Cbc(s[..at], ivec, key, ENCRYPT), v');
  }

  lemma DecryptedNext(t: seq<Byte>, v: Block, t': seq<Byte>, v': Block, s: seq<Byte>, at: nat, ivec: Block, key: Block)
    requires BlockMade(t, t', at, XorBlock(Des(key, DECRYPT)(v'), v)) && v' == t[at..at + 8]
    requires CbcDone(t, v, s, at, ivec, key, DECRYPT)
    ensures CbcDone(t', v', s, at + 8, ivec, key, DECRYPT)
  {
    hide Des, XorBlock;
    assert s[at..at + 8] == s[at..][..8] == t[at..][..8] == t[at..at + 8];
    DecryptedStep(s, at, ivec, Des(key, DECRYPT));
    UpToNext(t, v, t', v', s, at, Cbc(s[..at], ivec, key, DECRYPT), XorBlock(Des(key, DECRYPT)(v'), v));
  }

  /** One turn of the enciphering loop. */
  method EncryptBlock(buf: array<Byte>, at: nat, ivec: array<Byte>, keys: array2<bv32>, ghost key: Block)
    requires at + 8 <= buf.Length && ivec.Length == 8 && buf != ivec && Keyed(keys, key)
    modifies buf, ivec
    ensures BlockMade(old(buf[..]), buf[..], at, Des(key, ENCRYPT)(XorBlock(old(buf[..])[at..at + 8], old(ivec[..]))))
    ensures ivec[..] == Des(key, ENCRYPT)(XorBlock(old(buf[..])[at..at + 8], old(ivec[..])))
  {
    hide Keyed, Des, XorBlock;
    Parts(buf[..], buf, at);
    XorAt(buf, at, ivec);
    CryptAt(buf, at, DES_ENCRYPT, keys, key);
    CopyAt(buf, at, ivec);
    Parts(buf[..], buf, at);
  }

  /** One turn of the deciphering loop; `nvec` is the local copy. */
  method DecryptBlock(buf: array<Byte>, at: nat, ivec: array<Byte>, nvec: array<Byte>, keys: array2<bv32>, ghost key: Block)
    requires at + 8 <= buf.Length && ivec.Length == 8 && nvec.Length == 8 && buf != ivec && buf != nvec && nvec != ivec
    requires Keyed(keys, key)
    modifies buf, ivec, nvec
    ensures BlockMade(old(buf[..]), buf[..], at, XorBlock(Des(key, DECRYPT)(old(buf[..])[at..at + 8]), old(ivec[..])))
    ensures ivec[..] == old(buf[..])[at..at + 8]
  {
    hide Keyed, Des, XorBlock;
    Parts(buf[..], buf, at);
    CopyAt(buf, at, nvec);
    CryptAt(buf, at, DES_DECRYPT, keys, key);
    XorAt(buf, at, ivec);
    CopyAt(nvec, 0, ivec);
    Parts(buf[..], buf, at);
  }

  method CbcCrypt(key: Block, buf: array<Byte>, len: nat, mode: bv32, ivec: array<Byte>, keys: array2<bv32>) returns (status: int)
    requires len < 0x1_0000_0000 && buf.Length >= Rounded(len) && ivec.Length == 8 && buf != ivec
    requires keys.Length0 == 16 && keys.Length1 == 2
    modifies buf, ivec, keys
    ensures Keyed(keys, key)
    ensures mode & 1 == 0 ==>
      Chain(buf[..Rounded(len)], ivec[..]) == CbcEncrypted(old(buf[..Rounded(len)]), old(ivec[..]), Des(key, ENCRYPT))
    ensures mode & 1 != 0 ==>
      Chain(buf[..Rounded(len)], ivec[..]) == CbcDecrypted(old(buf[..Rounded(len)]), old(ivec[..]), Des(key, DECRYPT))
    ensures buf[Rounded(len)..] == old(buf[Rounded(len)..])
    ensures status == if mode & 2 != 0 then 0 else 1
  {
    hide Keyed, Des, Rounded, CbcDone;
    SetKey(key, keys);
    ghost var s, iv, way := buf[..], ivec[..], if mode & 1 == 0 then ENCRYPT else DECRYPT;
    CbcStart(s, iv, key, way);
    var at, left := 0, Rounded(len);
    if mode & DES_DIRMASK == DES_ENCRYPT {
      while left != 0
        invariant at + left == Rounded(len) && left % 8 == 0 && at % 8 == 0 && Keyed(keys, key)
        invariant CbcDone(buf[..], ivec[..], s, at, iv, key, ENCRYPT)
      {
        ghost var t, v := buf[..], ivec[..];
        EncryptBlock(buf, at, ivec, keys, key);
        EncryptedNext(t, v, buf[..], ivec[..], s, at, iv, key);
        at, left := at + 8, left - 8;
      }
    } else {
      var nvec := new Byte[8];
      while left != 0
        invariant at + left == Rounded(len) && left % 8 == 0 && at % 8 == 0 && Keyed(keys, key)
        invariant CbcDone(buf[..], ivec[..], s, at, iv, key, DECRYPT)
      {
        ghost var t, v := buf[..], ivec[..];
        DecryptBlock(buf, at, ivec, nvec, keys, key);
        DecryptedNext(t, v, buf[..], ivec[..], s, at, iv, key);
        at, left := at + 8, left - 8;
      }
    }
    CbcEnd(buf[..], ivec[..], s, at, iv, key, way);
    Halves(buf[..], buf, s, Rounded(len));
    status := if mode & DES_DEVMASK == DES_SW then DESERR_NONE else DESERR_NOHWDEVICE;
  }

  lemma CbcStart(s: seq<Byte>, ivec: Block, key: Block, mode: Mode)
    ensures CbcDone(s, ivec, s, 0, ivec, key, mode)
  {
    hide Des;
  }

  lemma CbcEnd(t: seq<Byte>, v: Block, s: seq<Byte>, at: nat, ivec: Block, key: Block, mode: Mode)
    requires at <= |s| && CbcDone(t, v, s, at, ivec, key, mode)
    ensures Whole(s[..at]) && |t| == |s| && Chain(t[..at], v) == Cbc(s[..at], ivec, key, mode) && t[at..] == s[at..]
  {
    hide Cbc;
  }

  lemma Halves(t: seq<Byte>, buf: array<Byte>, s: seq<Byte>, n: nat)
    requires t == buf[..] && n <= |t| == |s|
    ensures t[..n] == buf[..n] && t[n..] == buf[n..]
  {}

  // ----- the properties, for the engine's own cipher

  /** Each direction undoes the other when it starts from the same vector. */
  lemma CbcUndone(s: seq<Byte>, ivec: Block, key: Block)
    requires Whole(s)
    ensures var c := CbcEncrypted(s, ivec, Des(key, ENCRYPT)); CbcDecrypted(c.text, ivec, Des(key, DECRYPT)) == Chain(s, c.ivec)
    ensures var c := CbcDecrypted(s, ivec, Des(key, DECRYPT)); CbcEncrypted(c.text, ivec, Des(key, ENCRYPT)) == Chain(s, c.ivec)
  {
    hide Des;
    DesUndoes(key);
    CbcRoundTrip(s, ivec, Des(key, ENCRYPT), Des(key, DECRYPT));
    CbcRoundTripBack(s, ivec, Des(key, ENCRYPT), Des(key, DECRYPT));
  }

  lemma OtherWay(mode: bv32)
    ensures (mode ^ 1) & 1 == 0 <==> mode & 1 != 0
  {}

  /** A call with a mode word and one with its lowest bit changed: the buffer is back. */
  method EcbBack(key: Block, buf: array<Byte>, len: nat, mode: bv32, keys: array2<bv32>)
    requires len < 0x1_0000_0000 && buf.Length >= Rounded(len)
    requires keys.Length0 == 16 && keys.Length1 == 2
    modifies buf, keys
    ensures buf[..] == old(buf[..])
  {
    hide Keyed, Des, Rounded, Ecb;
    OtherWay(mode);
    DesUndoes(key);
    ghost var n := Rounded(len);
    EcbRoundTrip(buf[..n], Des(key, ENCRYPT), Des(key, DECRYPT));
    EcbRoundTrip(buf[..n], Des(key, DECRYPT), Des(key, ENCRYPT));
    assert buf[..] == buf[..n] + buf[n..];
    var _ := EcbCrypt(key, buf, len, mode, keys);
    var _ := EcbCrypt(key, buf, len, mode ^ 1, keys);
    assert buf[..] == buf[..n] + buf[n..];
  }

  /** So it is in chaining mode, with the starting vector in two places. */
  method CbcBack(key: Block, buf: array<Byte>, len: nat, mode: bv32, ivec: array<Byte>, again: array<Byte>, keys: array2<bv32>)
    requires len < 0x1_0000_0000 && buf.Length >= Rounded(len)
    requires ivec.Length == 8 && again.Length == 8 && buf != ivec && buf != again && ivec != again && ivec[..] == again[..]
    requires keys.Length0 == 16 && keys.Length1 == 2
    modifies buf, ivec, again, keys
    ensures buf[..] == old(buf[..])
    ensures ivec[..] == again[..]
  {
    hide Keyed, Des, Rounded, CbcEncrypted, CbcDecrypted;
    OtherWay(mode);
    ghost var n := Rounded(len);
    CbcUndone(buf[..n], ivec[..], key);
    assert buf[..] == buf[..n] + buf[n..];
    var _ := CbcCrypt(key, buf, len, mode, ivec, keys);
    var _ := CbcCrypt(key, buf, len, mode ^ 1, again, keys);
    assert buf[..] == buf[..n] + buf[n..];
  }
}
