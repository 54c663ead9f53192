/** The receiving side of a session (src/leo_tcp_game_protocol.c:3-14, 54-77; src/leo_dof_crypto.c:120-128). */
module GameProtocol {
  import opened Bits
  import opened FrameChecksum
  import opened ErrorDetection
  import opened XorStream

  /** The part of struct about_crypt that receiving uses. */
  datatype Crypt = Crypt(sequenceId: bv32, sessionKey: bv32, xorKey: seq<Byte>)

  /** What is in the buffer, and how many bytes the message has behind its length field. */
  datatype Frame = Frame(bytes: seq<Byte>, msgLen: nat)

  /** Long enough for every byte that the code looks at. */
  predicate Framed(f: Frame) {
    f.msgLen >= 2 && 2 + f.msgLen <= |f.bytes| && 6 <= |f.bytes|
  }

  /** Four bytes as a little-endian word. */
  function Little(s: seq<Byte>, at: nat): bv32
    requires at + 4 <= |s|
  {
    Word(s[at + 3], s[at + 2], s[at + 1], s[at])
  }

  function ByteNo(x: bv32, k: bv8): Byte
    requires k <= 24
  {
    ((x >> k) & 0xff) as Byte
  }

  /** A word as a number. */
  function Number(x: bv32): (n: nat)
    ensures n < 0x1_0000_0000
  {
    Index(ByteNo(x, 0)) + 0x100 * Index(ByteNo(x, 8)) + 0x1_0000 * Index(ByteNo(x, 16)) + 0x100_0000 * Index(ByteNo(x, 24))
  }

  lemma BytesOfWord(a: Byte, b: Byte, c: Byte, d: Byte)
    ensures ByteNo(Word(a, b, c, d), 24) == a && ByteNo(Word(a, b, c, d), 16) == b
    ensures ByteNo(Word(a, b, c, d), 8) == c && ByteNo(Word(a, b, c, d), 0) == d
  {}

  /** The byte order: the first byte counts least. */
  lemma LittleIs(s: seq<Byte>, at: nat)
    requires at + 4 <= |s|
    ensures Number(Little(s, at)) == Index(s[at]) + 0x100 * Index(s[at + 1]) + 0x1_0000 * Index(s[at + 2]) + 0x100_0000 * Index(s[at + 3])
  {
    hide Index, ByteNo, Word;
    BytesOfWord(s[at + 3], s[at + 2], s[at + 1], s[at]);
  }

  lemma WordOfBytes(x: bv32)
    ensures Word(ByteNo(x, 24), ByteNo(x, 16), ByteNo(x, 8), ByteNo(x, 0)) == x
  {}

  /** The four bytes at `at` are those of `x`, the least first. */
  predicate Spells(s: seq<Byte>, at: nat, x: bv32)
    requires at + 4 <= |s|
  {
    s[at] == ByteNo(x, 0) && s[at + 1] == ByteNo(x, 8) && s[at + 2] == ByteNo(x, 16) && s[at + 3] == ByteNo(x, 24)
  }

  lemma LittleSpells(s: seq<Byte>, at: nat, x: bv32)
    requires at + 4 <= |s|
    ensures Little(s, at) == x <==> Spells(s, at, x)
  {
    hide ByteNo, Word;
    BytesOfWord(s[at + 3], s[at + 2], s[at + 1], s[at]);
    WordOfBytes(x);
  }

  /** The buffer after xor_decrypt. */
  function Opened(f: Frame, key: seq<Byte>): (p: seq<Byte>)
    requires Framed(f) && |key| == KEY_LEN
    ensures |p| == |f.bytes|
  {
    f.bytes[..2] + Xored(f.bytes[2..2 + f.msgLen], key) + f.bytes[2 + f.msgLen..]
  }

  /** check_crc32 on the first `len` bytes. */
  predicate Checked(p: seq<Byte>, len: nat)
    requires 4 <= len <= |p|
  {
    Little(p, len - 4) == Crc(0, p[..len - 4])
  }

  predicate Intact(f: Frame, key: seq<Byte>)
    requires Framed(f) && |key| == KEY_LEN
  {
    Checked(Opened(f, key), 2 + f.msgLen)
  }

  /** The sequence number that a frame carries for this session. */
  function SequenceOf(f: Frame, c: Crypt): bv32
    requires Framed(f) && |c.xorKey| == KEY_LEN
  {
    Xor(Little(Opened(f, c.xorKey), 2), c.sessionKey)
  }

  predicate Accepted(f: Frame, c: Crypt)
    requires Framed(f) && |c.xorKey| == KEY_LEN
  {
    Intact(f, c.xorKey) && SequenceOf(f, c) == c.sequenceId
  }

  /** The session after a frame. */
  function After(c: Crypt, f: Frame): (d: Crypt)
    requires Framed(f) && |c.xorKey| == KEY_LEN
    ensures d.sessionKey == c.sessionKey && d.xorKey == c.xorKey
  {
    if Accepted(f, c) then c.(sequenceId := c.sequenceId + 1) else c
  }

  /** An opened frame that is as it should be, byte by byte: the trailer spells the checksum of everything before it, and the
      four bytes behind the length field spell `due`. */
  predicate GoodBytes(p: seq<Byte>, msgLen: nat, due: bv32)
    requires msgLen >= 2 && 2 + msgLen <= |p| && 6 <= |p|
  {
    Spells(p, msgLen - 2, Crc(0, p[..msgLen - 2])) && Spells(p, 2, due)
  }

  /** Acceptance, byte by byte. */
  lemma AcceptedByBytes(f: Frame, c: Crypt)
    requires Framed(f) && |c.xorKey| == KEY_LEN
    ensures Accepted(f, c) <==> GoodBytes(Opened(f, c.xorKey), f.msgLen, Xor(c.sequenceId, c.sessionKey))
  {
    hide Spells, Little, Opened, Crc, Xor;
    var p, e := Opened(f, c.xorKey), f.msgLen - 2;
    LittleSpells(p, e, Crc(0, p[..e]));
    LittleSpells(p, 2, Xor(c.sequenceId, c.sessionKey));
    XorMoves(Little(p, 2), c.sessionKey, c.sequenceId);
  }

  lemma XorMoves(x: bv32, k: bv32, y: bv32)
    ensures Xor(x, k) == y <==> x == Xor(y, k)
  {
    hide Xor;
    XorTwice(x, k);
    XorTwice(y, k);
  }

  lemma XorTwice(x: bv32, k: bv32)
    ensures Xor(Xor(x, k), k) == x
  {}

  // ----- the code

  method CheckCrc32(table: array<bv32>, buf: array<Byte>, len: nat) returns (ok: bool)
    requires Filled(table) && 4 <= len <= buf.Length
    ensures ok == Checked(buf[..], len)
    ensures ok <==>
      var crc := Crc(0, buf[..len - 4]);
      && buf[len - 4] == ByteNo(crc, 0) && buf[len - 3] == ByteNo(crc, 8)
      && buf[len - 2] == ByteNo(crc, 16) && buf[len - 1] == ByteNo(crc, 24)
  {
    hide Word, Crc, ByteNo;
    LittleSpells(buf[..], len - 4, Crc(0, buf[..len - 4]));
    var crc := Little(buf[..], len - 4);
    var newCrc := GenerateCrc32(table, buf, len - 4);
    assert buf[..][..len - 4] == buf[..len - 4];
    ok := crc == newCrc;
  }

  /** xor_decrypt behind the length field, then check_crc32. */
  method OpenAndCheck(table: array<bv32>, buf: array<Byte>, msgLen: nat, key: seq<Byte>) returns (ok: bool)
    requires Filled(table) && |key| == KEY_LEN && Framed(Frame(buf[..], msgLen))
    modifies buf
    ensures buf[..] == Opened(Frame(old(buf[..]), msgLen), key)
    ensures ok == Intact(Frame(old(buf[..]), msgLen), key)
  {
    hide Xored, Checked, ByteNo, Crc, XorByte, KeyIndex, Filled;
    ghost var f := Frame(buf[..], msgLen);
    OpenedParts(f, buf[2..2 + msgLen], buf[..2], buf[2 + msgLen..], key);
    XorCrypt(buf, 2, msgLen, key);
    assert buf[..] == buf[..2] + buf[2..2 + msgLen] + buf[2 + msgLen..];
    ok := CheckCrc32(table, buf, 2 + msgLen);
  }

  class AboutCrypt {
    var sequenceId: bv32
    var sessionKey: bv32
    var xorKey: seq<Byte>

    function State(): Crypt
      reads this
    {
      Crypt(sequenceId, sessionKey, xorKey)
    }

    /** What send_key does to the session; the two random choices are parameters. */
    method SendKey(random: bv32, randomKey: seq<Byte>)
      requires |randomKey| == KEY_LEN
      modifies this
      ensures State() == Crypt(0, random, randomKey)
    {
      sequenceId := 0;
      sessionKey := random;
      xorKey := randomKey;
    }

    /** Opens the frame in place and counts it if both checks pass. The result is always 0. */
    method TransformBufferToMessage(table: array<bv32>, buf: array<Byte>, msgLen: nat) returns (result: int)
      requires Filled(table) && |xorKey| == KEY_LEN && Framed(Frame(buf[..], msgLen))
      modifies this, buf
      ensures buf[..] == Opened(Frame(old(buf[..]), msgLen), old(xorKey))
      ensures State() == After(old(State()), Frame(old(buf[..]), msgLen))
      ensures sequenceId == if GoodBytes(buf[..], msgLen, Xor(old(sequenceId), sessionKey)) then Succ(old(sequenceId)) else old(sequenceId)
      ensures result == 0
    {
      hide Opened, GoodBytes, Little, Xor, Filled, Intact, After, Succ;
      ghost var f, c := Frame(buf[..], msgLen), State();
      Outcome(f, c);
      var ok := OpenAndCheck(table, buf, msgLen, xorKey);
      if !ok {
        return 0;
      }
      var sequence := Little(buf[..], 2);
      if Xor(sequence, sessionKey) != sequenceId {
        return 0;
      }
      sequenceId := Succ(sequenceId);
      return 0;
    }
  }

  /** The next sequence id: 32 bits wide. */
  function Succ(x: bv32): bv32 {
    x + 1
  }

  lemma Outcome(f: Frame, c: Crypt)
    requires Framed(f) && |c.xorKey| == KEY_LEN
    ensures var p := Opened(f, c.xorKey);
      var good := Intact(f, c.xorKey) && Xor(Little(p, 2), c.sessionKey) == c.sequenceId;
      && good == GoodBytes(p, f.msgLen, Xor(c.sequenceId, c.sessionKey))
      && After(c, f) == if good then c.(sequenceId := Succ(c.sequenceId)) else c
  {
    hide Opened, GoodBytes, Little, Xor, Intact;
    AcceptedByBytes(f, c);
  }

  lemma OpenedParts(f: Frame, mid: seq<Byte>, front: seq<Byte>, back: seq<Byte>, key: seq<Byte>)
    requires Framed(f) && |key| == KEY_LEN && f.bytes[2..2 + f.msgLen] == mid && f.bytes[..2] == front && f.bytes[2 + f.msgLen..] == back
    ensures Opened(f, key) == front + Xored(mid, key) + back
  {}

  // ----- runs

  /** The 32-bit counter after `n` increments. */
  function Counter(n: nat): bv32 {
    if n == 0 then 0 else Counter(n - 1) + 1
  }

  ghost predicate AllFramed(fs: seq<Frame>) {
    forall i :: 0 <= i < |fs| ==> Framed(fs[i])
  }

  /** The session after a run of frames. */
  function AfterAll(c: Crypt, fs: seq<Frame>): (d: Crypt)
    requires AllFramed(fs) && |c.xorKey| == KEY_LEN
    ensures d.sessionKey == c.sessionKey && d.xorKey == c.xorKey
    decreases |fs|
  {
    if fs == [] then c else After(AfterAll(c, fs[..|fs| - 1]), fs[|fs| - 1])
  }

  /** How many frames of a run were accepted. */
  function Count(c: Crypt, fs: seq<Frame>): nat
    requires AllFramed(fs) && |c.xorKey| == KEY_LEN
    decreases |fs|
  {
    if fs == [] then 0
    else Count(c, fs[..|fs| - 1]) + if Accepted(fs[|fs| - 1], AfterAll(c, fs[..|fs| - 1])) then 1 else 0
  }

  /** From send_key on, the sequence id is the number of accepted frames. */
  lemma {:induction false} SequenceIsCount(c: Crypt, fs: seq<Frame>)
    requires c.sequenceId == 0 && |c.xorKey| == KEY_LEN && AllFramed(fs)
    ensures AfterAll(c, fs).sequenceId == Counter(Count(c, fs))
    decreases |fs|
  {
    hide Accepted;
    if fs != [] {
      SequenceIsCount(c, fs[..|fs| - 1]);
    }
  }

  /** The frame that is accepted after `k` others carries sequence number `k`. */
  lemma AcceptedCarriesCount(c: Crypt, fs: seq<Frame>, f: Frame)
    requires c.sequenceId == 0 && |c.xorKey| == KEY_LEN && AllFramed(fs) && Framed(f)
    ensures Accepted(f, AfterAll(c, fs)) <==> Intact(f, c.xorKey) && SequenceOf(f, c) == Counter(Count(c, fs))
  {
    hide Intact, Opened;
    SequenceIsCount(c, fs);
  }

  // ----- the counter as a number

  lemma Carry(x: bv32)
    ensures ByteNo(x, 0) < 255 ==> ByteNo(x + 1, 0) == ByteNo(x, 0) + 1 && ByteNo(x + 1, 8) == ByteNo(x, 8)
    ensures ByteNo(x, 0) == 255 ==> ByteNo(x + 1, 0) == 0
    ensures ByteNo(x, 0) == 255 && ByteNo(x, 8) < 255 ==> ByteNo(x + 1, 8) == ByteNo(x, 8) + 1
    ensures ByteNo(x, 0) == 255 && ByteNo(x, 8) == 255 ==> ByteNo(x + 1, 8) == 0
  {}

  lemma CarryHigh(x: bv32)
    ensures ByteNo(x, 0) < 255 || ByteNo(x, 8) < 255 ==> ByteNo(x + 1, 16) == ByteNo(x, 16) && ByteNo(x + 1, 24) == ByteNo(x, 24)
    ensures ByteNo(x, 0) == 255 && ByteNo(x, 8) == 255 && ByteNo(x, 16) < 255 ==>
      ByteNo(x + 1, 16) == ByteNo(x, 16) + 1 && ByteNo(x + 1, 24) == ByteNo(x, 24)
    ensures ByteNo(x, 0) == 255 && ByteNo(x, 8) == 255 && ByteNo(x, 16) == 255 ==>
      ByteNo(x + 1, 16) == 0 && ByteNo(x + 1, 24) == ByteNo(x, 24) + 1
  {}

  lemma IndexStep(x: Byte)
    ensures x < 255 ==> Index(x + 1) == Index(x) + 1
    ensures x == 255 ==> Index(x) == 255 && Index(x + 1) == 0
  {
    if x < 255 {
      IndexNext(x);
    }
  }

  lemma NumberNext(x: bv32)
    ensures Number(x + 1) == (Number(x) + 1) % 0x1_0000_0000
  {
    hide Index, ByteNo;
    Carry(x);
    CarryHigh(x);
    IndexStep(ByteNo(x, 0));
    IndexStep(ByteNo(x, 8));
    IndexStep(ByteNo(x, 16));
    IndexStep(ByteNo(x, 24));
  }

  /** The counter is the number of increments, modulo 2^32. */
  lemma {:induction false} CounterIs(n: nat)
    ensures Number(Counter(n)) == n % 0x1_0000_0000
  {
    hide Number;
    if n > 0 {
      CounterIs(n - 1);
      NumberNext(Counter(n - 1));
    } else {
      NumberZero();
    }
  }

  lemma NumberZero()
    ensures Number(0) == 0
  {
    hide Index;
    assert ByteNo(0, 0) == 0 && ByteNo(0, 8) == 0 && ByteNo(0, 16) == 0 && ByteNo(0, 24) == 0;
    IndexEnds(0);
  }

  /** From send_key on, the sequence id is, modulo 2^32, how many frames passed both checks. */
  lemma SequenceIsNumber(c: Crypt, fs: seq<Frame>)
    requires c.sequenceId == 0 && |c.xorKey| == KEY_LEN && AllFramed(fs)
    ensures Number(AfterAll(c, fs).sequenceId) == Count(c, fs) % 0x1_0000_0000
  {
    hide Number, AfterAll, Count;
    SequenceIsCount(c, fs);
    CounterIs(Count(c, fs));
  }

  /** A frame that is accepted after `k` others and again after `m` others was accepted a multiple of 2^32 frames apart. */
  lemma NoEarlyReplay(c: Crypt, fs: seq<Frame>, gs: seq<Frame>, f: Frame)
    requires c.sequenceId == 0 && |c.xorKey| == KEY_LEN && AllFramed(fs) && AllFramed(gs) && Framed(f)
    requires Accepted(f, AfterAll(c, fs)) && Accepted(f, AfterAll(c, gs))
    ensures Count(c, fs) % 0x1_0000_0000 == Count(c, gs) % 0x1_0000_0000
  {
    hide Number, AfterAll, Count, Intact, Opened;
    AcceptedCarriesCount(c, fs, f);
    AcceptedCarriesCount(c, gs, f);
    CounterIs(Count(c, fs));
    CounterIs(Count(c, gs));
  }

  // ----- frames changed on the way

  lemma OpenedAt(f: Frame, key: seq<Byte>, k: nat)
    requires Framed(f) && |key| == KEY_LEN && k < |f.bytes|
    ensures Opened(f, key)[k] ==
      if 2 <= k < 2 + f.msgLen then XorByte(f.bytes[k], key[KeyIndex(k - 2, f.msgLen)]) else f.bytes[k]
  {
    hide XorByte, KeyIndex;
  }

  lemma XorByteCancels(x: Byte, y: Byte, z: Byte)
    ensures XorByte(x, z) == XorByte(y, z) <==> x == y
  {}

  /** Opening keeps every difference where it is. */
  lemma OpenedSameIff(f: Frame, g: Frame, key: seq<Byte>, k: nat)
    requires Framed(f) && Framed(g) && f.msgLen == g.msgLen && |f.bytes| == |g.bytes| && |key| == KEY_LEN && k < |f.bytes|
    ensures Opened(f, key)[k] == Opened(g, key)[k] <==> f.bytes[k] == g.bytes[k]
  {
    hide XorByte, KeyIndex, Opened;
    OpenedAt(f, key, k);
    OpenedAt(g, key, k);
    if 2 <= k < 2 + f.msgLen {
      XorByteCancels(f.bytes[k], g.bytes[k], key[KeyIndex(k - 2, f.msgLen)]);
    }
  }

  /** Two frames that differ, and only in the `n` bytes from `i` on. */
  ghost predicate Altered(f: Frame, g: Frame, i: nat, n: nat) {
    f.msgLen == g.msgLen && DifferInside(f.bytes, g.bytes, i, n) && f.bytes != g.bytes
  }

  lemma OpenedAltered(f: Frame, g: Frame, key: seq<Byte>, i: nat, n: nat)
    requires Framed(f) && Framed(g) && Altered(f, g, i, n) && |key| == KEY_LEN
    ensures DifferInside(Opened(f, key), Opened(g, key), i, n)
    ensures exists k :: i <= k < i + n && Opened(f, key)[k] != Opened(g, key)[k]
  {
    hide Opened;
    var p, q := Opened(f, key), Opened(g, key);
    forall k | 0 <= k < |p| && !(i <= k < i + n)
      ensures p[k] == q[k] && f.bytes[k] == g.bytes[k]
    {
      OpenedSameIff(f, g, key, k);
      if k < i {
        assert f.bytes[k] == f.bytes[..i][k] && g.bytes[k] == g.bytes[..i][k];
      } else {
        assert f.bytes[k] == f.bytes[i + n..][k - i - n] && g.bytes[k] == g.bytes[i + n..][k - i - n];
      }
    }
    var k :| 0 <= k < |p| && f.bytes[k] != g.bytes[k];
    OpenedSameIff(f, g, key, k);
  }

  /** A good frame changed in up to four neighbouring bytes ahead of its trailer leaves the session as it was. */
  lemma AlteredDataRejected(c: Crypt, f: Frame, g: Frame, i: nat, n: nat)
    requires Framed(f) && Framed(g) && |c.xorKey| == KEY_LEN && Intact(f, c.xorKey)
    requires Altered(f, g, i, n) && n <= 4 && i + n <= f.msgLen - 2
    ensures !Intact(g, c.xorKey) && After(c, g) == c
  {
    hide Opened, Word, Crc;
    var p, q, e := Opened(f, c.xorKey), Opened(g, c.xorKey), f.msgLen - 2;
    OpenedAltered(f, g, c.xorKey, i, n);
    var a, b := p[..e], q[..e];
    forall k | 0 <= k < |p| && !(i <= k < i + n)
      ensures p[k] == q[k]
    {
      if k < i {
        assert p[k] == p[..i][k] && q[k] == q[..i][k];
      } else {
        assert p[k] == p[i + n..][k - i - n] && q[k] == q[i + n..][k - i - n];
      }
    }
    assert DifferInside(a, b, i, n);
    var k :| i <= k < i + n && p[k] != q[k];
    assert a[k] != b[k];
    BurstNoticed(a, b, i, n);
  }

  lemma WordTells(a: Byte, b: Byte, c: Byte, d: Byte, a': Byte, b': Byte, c': Byte, d': Byte)
    ensures Word(a, b, c, d) == Word(a', b', c', d') <==> a == a' && b == b' && c == c' && d == d'
  {}

  /** So does a good frame changed in its trailer, in any number of the trailer's bytes. */
  lemma AlteredTrailerRejected(c: Crypt, f: Frame, g: Frame)
    requires Framed(f) && Framed(g) && |c.xorKey| == KEY_LEN && Intact(f, c.xorKey)
    requires Altered(f, g, f.msgLen - 2, 4)
    ensures !Intact(g, c.xorKey) && After(c, g) == c
  {
    hide Opened, Word, Crc;
    var p, q, e := Opened(f, c.xorKey), Opened(g, c.xorKey), f.msgLen - 2;
    OpenedAltered(f, g, c.xorKey, e, 4);
    var k :| e <= k < e + 4 && p[k] != q[k];
    WordTells(p[e + 3], p[e + 2], p[e + 1], p[e], q[e + 3], q[e + 2], q[e + 1], q[e]);
  }

  // ----- frames as they should be made

  /** The bytes of `x`, the least first. */
  function Bytes4(x: bv32): (s: seq<Byte>)
    ensures |s| == 4 && s[0] == ByteNo(x, 0) && s[1] == ByteNo(x, 8) && s[2] == ByteNo(x, 16) && s[3] == ByteNo(x, 24)
  {
    [ByteNo(x, 0), ByteNo(x, 8), ByteNo(x, 16), ByteNo(x, 24)]
  }

  /** Length field, number `n` under the session key, payload. */
  function Plain(header: seq<Byte>, n: bv32, payload: seq<Byte>, c: Crypt): seq<Byte> {
    header + Bytes4(Xor(n, c.sessionKey)) + payload
  }

  /** A frame laid out as the receiver expects it: the checksum behind the data, everything behind the length field enciphered. */
  function Sealed(header: seq<Byte>, n: bv32, payload: seq<Byte>, c: Crypt): (f: Frame)
    requires |header| == 2 && |c.xorKey| == KEY_LEN
    ensures Framed(f)
  {
    var plain := Plain(header, n, payload, c);
    var body := plain[2..] + Bytes4(Crc(0, plain));
    Frame(header + Xored(body, c.xorKey), |body|)
  }

  lemma SealedOpens(header: seq<Byte>, n: bv32, payload: seq<Byte>, c: Crypt)
    requires |header| == 2 && |c.xorKey| == KEY_LEN
    ensures var f, plain := Sealed(header, n, payload, c), Plain(header, n, payload, c);
      Opened(f, c.xorKey) == plain + Bytes4(Crc(0, plain)) && f.msgLen == |plain| + 2
  {
    hide Xored, Crc, Bytes4, Xor;
    var f, plain := Sealed(header, n, payload, c), Plain(header, n, payload, c);
    var body := plain[2..] + Bytes4(Crc(0, plain));
    XoredTwice(body, c.xorKey);
    assert f.bytes[..2] == header && f.bytes[2..2 + f.msgLen] == Xored(body, c.xorKey) && f.bytes[2 + f.msgLen..] == [];
    assert plain[..2] == header;
  }

  /** Such a frame passes both checks exactly when it carries the number that is due. */
  lemma SealedAccepted(header: seq<Byte>, n: bv32, payload: seq<Byte>, c: Crypt)
    requires |header| == 2 && |c.xorKey| == KEY_LEN
    ensures Accepted(Sealed(header, n, payload, c), c) <==> n == c.sequenceId
  {
    hide Sealed, Opened, Crc, Xor, ByteNo, Bytes4;
    var f, plain := Sealed(header, n, payload, c), Plain(header, n, payload, c);
    var p, e := Opened(f, c.xorKey), f.msgLen - 2;
    SealedOpens(header, n, payload, c);
    AcceptedByBytes(f, c);
    assert p[..e] == plain;
    assert Spells(p, e, Crc(0, plain));
    assert Spells(p, 2, Xor(n, c.sessionKey));
    LittleSpells(p, 2, Xor(n, c.sessionKey));
    LittleSpells(p, 2, Xor(c.sequenceId, c.sessionKey));
    XorKeyTells(n, c.sequenceId, c.sessionKey);
  }

  lemma XorKeyTells(x: bv32, y: bv32, k: bv32)
    ensures Xor(x, k) == Xor(y, k) <==> x == y
  {}

  /** Frames numbered from 0 on, in order. */
  function SealedRun(header: seq<Byte>, payloads: seq<seq<Byte>>, c: Crypt): (fs: seq<Frame>)
    requires |header| == 2 && |c.xorKey| == KEY_LEN
    ensures |fs| == |payloads| && forall i :: 0 <= i < |fs| ==> Framed(fs[i])
    decreases |payloads|
  {
    if payloads == [] then []
    else SealedRun(header, payloads[..|payloads| - 1], c) + [Sealed(header, Counter(|payloads| - 1), payloads[|payloads| - 1], c)]
  }

  /** Sent in order, all of them are accepted. */
  lemma {:induction false} SealedRunAccepted(header: seq<Byte>, payloads: seq<seq<Byte>>, c: Crypt)
    requires |header| == 2 && |c.xorKey| == KEY_LEN && c.sequenceId == 0
    ensures Count(c, SealedRun(header, payloads, c)) == |payloads|
    decreases |payloads|
  {
    hide Accepted, Sealed;
    if payloads != [] {
      var n := |payloads| - 1;
      var fs, gs := SealedRun(header, payloads, c), SealedRun(header, payloads[..n], c);
      SealedRunAccepted(header, payloads[..n], c);
      assert fs[..n] == gs;
      SequenceIsCount(c, gs);
      var d := AfterAll(c, gs);
      SealedAccepted(header, Counter(n), payloads[n], d);
      SameKeys(header, Counter(n), payloads[n], c, d);
    }
  }

  lemma SameKeys(header: seq<Byte>, n: bv32, payload: seq<Byte>, c: Crypt, d: Crypt)
    requires |header| == 2 && |c.xorKey| == KEY_LEN && c.xorKey == d.xorKey && c.sessionKey == d.sessionKey
    ensures Sealed(header, n, payload, c) == Sealed(header, n, payload, d)
  {}
}
