/** Electronic codebook and cipher block chaining (sections 6.1 and 6.2 of NIST SP 800-38A) over any block cipher. */
module CipherModes {
  import opened Bits
  import opened DesKeySpec

  type BlockCipher = Block -> Block

  /** `d` undoes `e`. */
  ghost predicate Undoes(d: BlockCipher, e: BlockCipher) {
    forall x: Block :: d(e(x)) == x
  }

  function XorBlock(x: Block, y: Block): (z: Block)
    ensures forall i :: 0 <= i < 8 ==> z[i] == XorByte(x[i], y[i])
  {
    seq(8, i requires 0 <= i < 8 => XorByte(x[i], y[i]))
  }

  lemma XorBlockTwice(x: Block, y: Block)
    ensures XorBlock(XorBlock(x, y), y) == x
  {
    hide XorBlock, XorByte;
    var z := XorBlock(XorBlock(x, y), y);
    forall i | 0 <= i < 8
      ensures z[i] == x[i]
    {
      XorByteTwice(x[i], y[i]);
    }
  }

  /** Whole blocks. */
  predicate Whole(s: seq<Byte>) {
    |s| % 8 == 0
  }

  function BlockNo(s: seq<Byte>, j: nat): Block
    requires 8 * j + 8 <= |s|
  {
    s[8 * j..8 * j + 8]
  }

  lemma BlockOfTail(x: Block, s: seq<Byte>, j: nat)
    requires 8 * j + 8 <= |s|
    ensures BlockNo(x + s, j + 1) == BlockNo(s, j) && BlockNo(x + s, 0) == x
  {}

  // ----- electronic codebook

  function Ecb(s: seq<Byte>, e: BlockCipher): (t: seq<Byte>)
    requires Whole(s)
    ensures |t| == |s|
    decreases |s|
  {
    if s == [] then [] else e(s[..8]) + Ecb(s[8..], e)
  }

  lemma Associate(x: seq<Byte>, y: seq<Byte>, z: seq<Byte>)
    ensures x + (y + z) == (x + y) + z
  {}

  lemma {:induction false} EcbAppend(a: seq<Byte>, b: seq<Byte>, e: BlockCipher)
    requires Whole(a) && Whole(b)
    ensures Ecb(a + b, e) == Ecb(a, e) + Ecb(b, e)
    decreases |a|
  {
    if a == [] {
      assert a + b == b;
    } else {
      assert (a + b)[..8] == a[..8] && (a + b)[8..] == a[8..] + b;
      EcbAppend(a[8..], b, e);
      Associate(e(a[..8]), Ecb(a[8..], e), Ecb(b, e));
    }
  }

  lemma {:induction false} EcbRoundTrip(s: seq<Byte>, e: BlockCipher, d: BlockCipher)
    requires Whole(s) && Undoes(d, e)
    ensures Ecb(Ecb(s, e), d) == s
    decreases |s|
  {
    if s != [] {
      var t := Ecb(s, e);
      assert t[..8] == e(s[..8]) && t[8..] == Ecb(s[8..], e);
      EcbRoundTrip(s[8..], e, d);
    }
  }

  /** Every block is enciphered by itself. */
  lemma {:induction false} EcbBlock(s: seq<Byte>, e: BlockCipher, j: nat)
    requires Whole(s) && 8 * j + 8 <= |s|
    ensures BlockNo(Ecb(s, e), j) == e(BlockNo(s, j))
    decreases j
  {
    hide BlockNo;
    var x: Block, rest := e(s[..8]), Ecb(s[8..], e);
    assert s == s[..8] + s[8..];
    FirstBlock(s);
    FirstBlock(x + rest);
    assert (x + rest)[..8] == x;
    if j > 0 {
      BlockOfTail(s[..8], s[8..], j - 1);
      BlockOfTail(x, rest, j - 1);
      EcbBlock(s[8..], e, j - 1);
    }
  }

  // ----- cipher block chaining

  /** What a call leaves in the buffer and in the vector. */
  datatype Chain = Chain(text: seq<Byte>, ivec: Block)

  function Then(block: Block, rest: Chain): Chain {
    Chain(block + rest.text, rest.ivec)
  }

  function CbcEncrypted(s: seq<Byte>, ivec: Block, e: BlockCipher): (c: Chain)
    requires Whole(s)
    ensures |c.text| == |s|
    decreases |s|
  {
    if s == [] then Chain([], ivec)
    else
      var x := e(XorBlock(s[..8], ivec));
      Then(x, CbcEncrypted(s[8..], x, e))
  }

  function CbcDecrypted(s: seq<Byte>, ivec: Block, d: BlockCipher): (c: Chain)
    requires Whole(s)
    ensures |c.text| == |s|
    decreases |s|
  {
    if s == [] then Chain([], ivec)
    else Then(XorBlock(d(s[..8]), ivec), CbcDecrypted(s[8..], s[..8], d))
  }

  /** `p`, then what `q` made starting from the vector that `p` left. */
  function Joined(p: Chain, q: Chain): Chain {
    Chain(p.text + q.text, q.ivec)
  }

  /** `a + b` in one call is `a`, then `b` with the vector that `a` left. */
  lemma {:induction false} EncryptedInParts(a: seq<Byte>, b: seq<Byte>, ivec: Block, e: BlockCipher)
    requires Whole(a) && Whole(b)
    ensures CbcEncrypted(a + b, ivec, e) == Joined(CbcEncrypted(a, ivec, e), CbcEncrypted(b, CbcEncrypted(a, ivec, e).ivec, e))
    decreases |a|
  {
    hide XorBlock;
    if a == [] {
      assert a + b == b;
    } else {
      assert (a + b)[..8] == a[..8] && (a + b)[8..] == a[8..] + b;
      EncryptedInParts(a[8..], b, e(XorBlock(a[..8], ivec)), e);
    }
  }

  lemma {:induction false} DecryptedInParts(a: seq<Byte>, b: seq<Byte>, ivec: Block, d: BlockCipher)
    requires Whole(a) && Whole(b)
    ensures CbcDecrypted(a + b, ivec, d) == Joined(CbcDecrypted(a, ivec, d), CbcDecrypted(b, CbcDecrypted(a, ivec, d).ivec, d))
    decreases |a|
  {
    hide XorBlock;
    if a == [] {
      assert a + b == b;
    } else {
      assert (a + b)[..8] == a[..8] && (a + b)[8..] == a[8..] + b;
      DecryptedInParts(a[8..], b, a[..8], d);
    }
  }

  /** Deciphering what was enciphered from the same vector gives the buffer back, and leaves the same vector. */
  lemma {:induction false} CbcRoundTrip(s: seq<Byte>, ivec: Block, e: BlockCipher, d: BlockCipher)
    requires Whole(s) && Undoes(d, e)
    ensures CbcDecrypted(CbcEncrypted(s, ivec, e).text, ivec, d) == Chain(s, CbcEncrypted(s, ivec, e).ivec)
    decreases |s|
  {
    hide XorBlock;
    if s != [] {
      var c := CbcEncrypted(s, ivec, e);
      var x := e(XorBlock(s[..8], ivec));
      assert c.text[..8] == x && c.text[8..] == CbcEncrypted(s[8..], x, e).text;
      XorBlockTwice(s[..8], ivec);
      CbcRoundTrip(s[8..], x, e, d);
    }
  }

  /** The other way round: enciphering what was deciphered from the same vector. */
  lemma {:induction false} CbcRoundTripBack(s: seq<Byte>, ivec: Block, e: BlockCipher, d: BlockCipher)
    requires Whole(s) && Undoes(e, d)
    ensures CbcEncrypted(CbcDecrypted(s, ivec, d).text, ivec, e) == Chain(s, CbcDecrypted(s, ivec, d).ivec)
    decreases |s|
  {
    hide XorBlock;
    if s != [] {
      var c := CbcDecrypted(s, ivec, d);
      var x := XorBlock(d(s[..8]), ivec);
      assert c.text[..8] == x && c.text[8..] == CbcDecrypted(s[8..], s[..8], d).text;
      XorBlockTwice(d(s[..8]), ivec);
      CbcRoundTripBack(s[8..], s[..8], e, d);
    }
  }

  /** The vector left behind is the last block of ciphertext, for both directions. */
  lemma {:induction false} LastBlockLeft(s: seq<Byte>, ivec: Block, e: BlockCipher)
    requires Whole(s) && s != []
    ensures CbcEncrypted(s, ivec, e).ivec == CbcEncrypted(s, ivec, e).text[|s| - 8..]
    ensures CbcDecrypted(s, ivec, e).ivec == s[|s| - 8..]
    decreases |s|
  {
    hide XorBlock;
    var x := e(XorBlock(s[..8], ivec));
    var rest := CbcEncrypted(s[8..], x, e);
    if |s| == 8 {
      assert s[8..] == [];
      assert x + [] == x;
    } else {
      LastBlockLeft(s[8..], x, e);
      LastBlockLeft(s[8..], s[..8], e);
      assert (x + rest.text)[|s| - 8..] == rest.text[|s| - 16..];
    }
  }

  /** The recurrence of section 6.2: every block is chained to the ciphertext before it. */
  lemma {:induction false} EncryptedBlock(s: seq<Byte>, ivec: Block, e: BlockCipher, j: nat)
    requires Whole(s) && 8 * j + 8 <= |s|
    ensures var t := CbcEncrypted(s, ivec, e).text;
      BlockNo(t, j) == e(XorBlock(BlockNo(s, j), if j == 0 then ivec else BlockNo(t, j - 1)))
    decreases j
  {
    hide BlockNo;
    var x: Block := e(XorBlock(s[..8], ivec));
    var rest := CbcEncrypted(s[8..], x, e).text;
    assert s == s[..8] + s[8..];
    FirstBlock(s);
    FirstBlock(x + rest);
    assert (x + rest)[..8] == x;
    if j > 0 {
      BlockOfTail(s[..8], s[8..], j - 1);
      BlockOfTail(x, rest, j - 1);
      EncryptedBlock(s[8..], x, e, j - 1);
      if j > 1 {
        BlockOfTail(x, rest, j - 2);
      }
    }
  }

  lemma FirstBlock(s: seq<Byte>)
    requires |s| >= 8
    ensures BlockNo(s, 0) == s[..8]
  {}

  lemma {:induction false} DecryptedBlock(s: seq<Byte>, ivec: Block, d: BlockCipher, j: nat)
    requires Whole(s) && 8 * j + 8 <= |s|
    ensures BlockNo(CbcDecrypted(s, ivec, d).text, j) == XorBlock(d(BlockNo(s, j)), if j == 0 then ivec else BlockNo(s, j - 1))
    decreases j
  {
    hide BlockNo;
    var x: Block := XorBlock(d(s[..8]), ivec);
    var rest := CbcDecrypted(s[8..], s[..8], d).text;
    assert s == s[..8] + s[8..];
    FirstBlock(s);
    FirstBlock(x + rest);
    assert (x + rest)[..8] == x;
    if j > 0 {
      BlockOfTail(s[..8], s[8..], j - 1);
      BlockOfTail(x, rest, j - 1);
      DecryptedBlock(s[8..], s[..8], d, j - 1);
      if j > 1 {
        BlockOfTail(s[..8], s[8..], j - 2);
      }
    }
  }
}
