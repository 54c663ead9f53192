/** The table-driven engine as functions (src/leo_des_crypto.c), and its tables against the permutations of the standard. */
module FastDesSpec {
  import opened DesTables
  import opened Bits
  import opened DesKeySpec
  import opened StandardDesSpec

  /** Both words of keys[i]. */
  type KeyPair = (bv32, bv32)

  // ----- initial transpose (lines 522-539)

  /** The eight table words, each shifted right once more than the next. */
  function Folded(x0: bv32, x1: bv32, x2: bv32, x3: bv32, x4: bv32, x5: bv32, x6: bv32, x7: bv32): bv32 {
    (((((((((((((x0 >> 1) | x1) >> 1) | x2) >> 1) | x3) >> 1) | x4) >> 1) | x5) >> 1) | x6) >> 1) | x7
  }

  function TransposeL(s: Block): bv32 {
    Folded(IpL(s[0]), IpL(s[1]), IpL(s[2]), IpL(s[3]), IpL(s[4]), IpL(s[5]), IpL(s[6]), IpL(s[7]))
  }

  function TransposeR(s: Block): bv32 {
    Folded(IpR(s[0]), IpR(s[1]), IpR(s[2]), IpR(s[3]), IpR(s[4]), IpR(s[5]), IpR(s[6]), IpR(s[7]))
  }

  /** Four bits of a byte, `n` to `n + 6`, at the ends of the four bytes of a word. */
  function Spread(b: Byte, n: bv8): bv32
    requires n < 2
  {
    var x := (b >> n) as bv32;
    ((x & 1) << 7) | ((x & 4) << 13) | ((x & 0x10) << 19) | ((x & 0x40) << 25)
  }

  lemma IpLSpreads(b: Byte)
    ensures IpL(b) == Spread(b, 0)
  {}

  lemma IpRSpreads(b: Byte)
    ensures IpR(b) == Spread(b, 1)
  {}

  lemma FoldedHi(s: Block)
    ensures Folded(Spread(s[0], 0), Spread(s[1], 0), Spread(s[2], 0), Spread(s[3], 0),
                   Spread(s[4], 0), Spread(s[5], 0), Spread(s[6], 0), Spread(s[7], 0)) == IpHi(s)
  {}

  lemma FoldedLo(s: Block)
    ensures Folded(Spread(s[0], 1), Spread(s[1], 1), Spread(s[2], 1), Spread(s[3], 1),
                   Spread(s[4], 1), Spread(s[5], 1), Spread(s[6], 1), Spread(s[7], 1)) == IpLo(s)
  {}

  /** The table lookups compute the initial permutation. */
  lemma TransposeIsIp(s: Block)
    ensures TransposeL(s) == IpHi(s) && TransposeR(s) == IpLo(s)
  {
    hide Folded, Spread, IpL, IpR, IpHi, IpLo;
    IpLSpreads(s[0]);
    IpLSpreads(s[1]);
    IpLSpreads(s[2]);
    IpLSpreads(s[3]);
    IpLSpreads(s[4]);
    IpLSpreads(s[5]);
    IpLSpreads(s[6]);
    IpLSpreads(s[7]);
    FoldedHi(s);
    IpRSpreads(s[0]);
    IpRSpreads(s[1]);
    IpRSpreads(s[2]);
    IpRSpreads(s[3]);
    IpRSpreads(s[4]);
    IpRSpreads(s[5]);
    IpRSpreads(s[6]);
    IpRSpreads(s[7]);
    FoldedLo(s);
  }

  // ----- final transpose (lines 580-604)

  function FinalL(l: bv32, r: bv32): bv32 {
    Folded(IpInvL(ByteOf(r, 0)), IpInvL(ByteOf(l, 0)), IpInvL(ByteOf(r, 8)), IpInvL(ByteOf(l, 8)),
           IpInvL(ByteOf(r, 16)), IpInvL(ByteOf(l, 16)), IpInvL(ByteOf(r, 24)), IpInvL(ByteOf(l, 24)))
  }

  function FinalR(l: bv32, r: bv32): bv32 {
    Folded(IpInvR(ByteOf(r, 0)), IpInvR(ByteOf(l, 0)), IpInvR(ByteOf(r, 8)), IpInvR(ByteOf(l, 8)),
           IpInvR(ByteOf(r, 16)), IpInvR(ByteOf(l, 16)), IpInvR(ByteOf(r, 24)), IpInvR(ByteOf(l, 24)))
  }

  /** Four neighbouring bits of a byte, `n` to `n + 3`, the first in the top byte of a word. */
  function SpreadBack(b: Byte, n: bv8): bv32
    requires n < 8
  {
    var x := (b >> n) as bv32;
    ((x & 1) << 31) | ((x & 2) << 22) | ((x & 4) << 13) | ((x & 8) << 4)
  }

  lemma IpInvLSpreads(b: Byte)
    ensures IpInvL(b) == SpreadBack(b, 0)
  {}

  lemma IpInvRSpreads(b: Byte)
    ensures IpInvR(b) == SpreadBack(b, 4)
  {}

  function FoldedBack(l: bv32, r: bv32, n: bv8): bv32
    requires n < 8
  {
    Folded(SpreadBack(ByteOf(r, 0), n), SpreadBack(ByteOf(l, 0), n), SpreadBack(ByteOf(r, 8), n), SpreadBack(ByteOf(l, 8), n),
           SpreadBack(ByteOf(r, 16), n), SpreadBack(ByteOf(l, 16), n), SpreadBack(ByteOf(r, 24), n), SpreadBack(ByteOf(l, 24), n))
  }

  lemma FoldedGather0(l: bv32, r: bv32)
    ensures ByteOf(FoldedBack(l, r, 0), 24) == Gather(r, l, 7, 15, 23, 31) && ByteOf(FoldedBack(l, r, 0), 16) == Gather(r, l, 6, 14, 22, 30)
    ensures ByteOf(FoldedBack(l, r, 0), 8) == Gather(r, l, 5, 13, 21, 29) && ByteOf(FoldedBack(l, r, 0), 0) == Gather(r, l, 4, 12, 20, 28)
  {}

  lemma FoldedGather4(l: bv32, r: bv32)
    ensures ByteOf(FoldedBack(l, r, 4), 24) == Gather(r, l, 3, 11, 19, 27) && ByteOf(FoldedBack(l, r, 4), 16) == Gather(r, l, 2, 10, 18, 26)
    ensures ByteOf(FoldedBack(l, r, 4), 8) == Gather(r, l, 1, 9, 17, 25) && ByteOf(FoldedBack(l, r, 4), 0) == Gather(r, l, 0, 8, 16, 24)
  {}

  lemma FinalSpread(l: bv32, r: bv32)
    ensures FinalL(l, r) == FoldedBack(l, r, 0) && FinalR(l, r) == FoldedBack(l, r, 4)
  {
    hide Folded, SpreadBack, IpInvL, IpInvR, ByteOf;
    IpInvLSpreads(ByteOf(r, 0));
    IpInvLSpreads(ByteOf(l, 0));
    IpInvLSpreads(ByteOf(r, 8));
    IpInvLSpreads(ByteOf(l, 8));
    IpInvLSpreads(ByteOf(r, 16));
    IpInvLSpreads(ByteOf(l, 16));
    IpInvLSpreads(ByteOf(r, 24));
    IpInvLSpreads(ByteOf(l, 24));
    IpInvRSpreads(ByteOf(r, 0));
    IpInvRSpreads(ByteOf(l, 0));
    IpInvRSpreads(ByteOf(r, 8));
    IpInvRSpreads(ByteOf(l, 8));
    IpInvRSpreads(ByteOf(r, 16));
    IpInvRSpreads(ByteOf(l, 16));
    IpInvRSpreads(ByteOf(r, 24));
    IpInvRSpreads(ByteOf(l, 24));
  }

  /** The eight bytes written at the end. */
  function Written(l2: bv32, r2: bv32): (b: Block)
    ensures b[0] == ByteOf(l2, 24) && b[1] == ByteOf(l2, 16) && b[2] == ByteOf(l2, 8) && b[3] == ByteOf(l2, 0)
    ensures b[4] == ByteOf(r2, 24) && b[5] == ByteOf(r2, 16) && b[6] == ByteOf(r2, 8) && b[7] == ByteOf(r2, 0)
  {
    [ByteOf(l2, 24), ByteOf(l2, 16), ByteOf(l2, 8), ByteOf(l2, 0), ByteOf(r2, 24), ByteOf(r2, 16), ByteOf(r2, 8), ByteOf(r2, 0)]
  }

  /** The table lookups compute the inverse permutation of the halves with their sides changed. */
  lemma FinalIsInvIp(l: bv32, r: bv32)
    ensures Written(FinalL(l, r), FinalR(l, r)) == InvIp(r, l)
  {
    hide FinalL, FinalR, Written, InvIp, ByteOf, Gather, FoldedBack;
    FinalSpread(l, r);
    FoldedGather0(l, r);
    FoldedGather4(l, r);
    var w, b := Written(FinalL(l, r), FinalR(l, r)), InvIp(r, l);
    assert w[0] == b[0] && w[1] == b[1] && w[2] == b[2] && w[3] == b[3] && w[4] == b[4] && w[5] == b[5] && w[6] == b[6] && w[7] == b[7];
  }
}
