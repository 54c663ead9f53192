/** xor_crypt (src/leo_dof_crypto.c:25-60): words first, then the one to three bytes that are left. */
module XorStream {
  import opened Bits

  const KEY_LEN := 16

  /** Which byte of the key meets byte `i` of `len`: the words go round all sixteen, the rest starts again at the first. */
  function KeyIndex(i: nat, len: nat): (k: nat)
    requires i < len
    ensures k < KEY_LEN
  {
    if i < len / 4 * 4 then i % KEY_LEN else i - len / 4 * 4
  }

  function Xored(s: seq<Byte>, key: seq<Byte>): (t: seq<Byte>)
    requires |key| == KEY_LEN
    ensures |t| == |s| && forall i :: 0 <= i < |s| ==> t[i] == XorByte(s[i], key[KeyIndex(i, |s|)])
  {
    seq(|s|, i requires 0 <= i < |s| => XorByte(s[i], key[KeyIndex(i, |s|)]))
  }

  /** One turn of the loop over words. */
  method XorWord(buf: array<Byte>, at: nat, key: seq<Byte>, j: nat)
    requires at + 4 <= buf.Length && |key| == KEY_LEN && j < 4
    modifies buf
    ensures forall k :: 0 <= k < buf.Length ==> buf[k] == if at <= k < at + 4 then XorByte(old(buf[k]), key[4 * j + k - at]) else old(buf[k])
  {
    forall k | 0 <= k < 4 {
      buf[at + k] := XorByte(buf[at + k], key[4 * j + k]);
    }
  }

  lemma WordKey(i: nat, k: nat, len: nat)
    requires 4 * i + 4 <= len && k < 4
    ensures KeyIndex(4 * i + k, len) == 4 * (i % 4) + k
  {
    var q, j := i / 4, i % 4;
    assert i == 4 * q + j && 4 * i + k == 16 * q + (4 * j + k);
  }

  /** Of the `len` bytes from `from` on, the first `n` have met their key bytes, and nothing else has changed. */
  ghost predicate Met(t: seq<Byte>, s: seq<Byte>, from: nat, len: nat, key: seq<Byte>, n: nat)
    requires from + len <= |s| && |key| == KEY_LEN && n <= len
  {
    |t| == |s| && forall k :: 0 <= k < |s| ==> t[k] == if from <= k < from + n then XorByte(s[k], key[KeyIndex(k - from, len)]) else s[k]
  }

  lemma MetWord(t: seq<Byte>, t': seq<Byte>, s: seq<Byte>, from: nat, len: nat, key: seq<Byte>, i: nat)
    requires from + len <= |s| && |key| == KEY_LEN && 4 * i + 4 <= len && Met(t, s, from, len, key, 4 * i) && |t'| == |t|
    requires forall k :: 0 <= k < |t| ==>
      t'[k] == if from + 4 * i <= k < from + 4 * i + 4 then XorByte(t[k], key[4 * (i % 4) + k - (from + 4 * i)]) else t[k]
    ensures Met(t', s, from, len, key, 4 * (i + 1))
  {
    hide XorByte, KeyIndex;
    forall k | 0 <= k < |s|
      ensures t'[k] == if from <= k < from + 4 * i + 4 then XorByte(s[k], key[KeyIndex(k - from, len)]) else s[k]
    {
      if from + 4 * i <= k < from + 4 * i + 4 {
        WordKey(i, k - from - 4 * i, len);
      }
    }
  }

  lemma MetByte(t: seq<Byte>, s: seq<Byte>, from: nat, len: nat, key: seq<Byte>, i: nat)
    requires from + len <= |s| && |key| == KEY_LEN && i < len % 4 && Met(t, s, from, len, key, len - len % 4 + i)
    ensures var at := from + (len - len % 4) + i;
      Met(t[at := XorByte(t[at], key[i])], s, from, len, key, len - len % 4 + i + 1)
  {
    hide XorByte, KeyIndex;
    TailKey(i, len);
  }

  lemma AllMet(t: seq<Byte>, s: seq<Byte>, from: nat, len: nat, key: seq<Byte>)
    requires from + len <= |s| && |key| == KEY_LEN && Met(t, s, from, len, key, len)
    ensures t[from..from + len] == Xored(s[from..from + len], key)
    ensures t[..from] == s[..from] && t[from + len..] == s[from + len..]
  {
    hide XorByte, KeyIndex, Xored;
    var x, y := t[from..from + len], Xored(s[from..from + len], key);
    forall k | 0 <= k < len
      ensures x[k] == y[k]
    {
      assert x[k] == t[from + k] && s[from..from + len][k] == s[from + k];
    }
  }

  /** The bytes from `from` on, `len` of them, in place. */
  method XorCrypt(buf: array<Byte>, from: nat, len: nat, key: seq<Byte>)
    requires from + len <= buf.Length && |key| == KEY_LEN
    modifies buf
    ensures buf[from..from + len] == Xored(old(buf[from..from + len]), key)
    ensures buf[..from] == old(buf[..from]) && buf[from + len..] == old(buf[from + len..])
    ensures forall k :: from <= k < from + len - len % 4 ==> buf[k] == XorByte(old(buf[k]), key[(k - from) % 16])
    ensures forall k :: from + len - len % 4 <= k < from + len ==> buf[k] == XorByte(old(buf[k]), key[k - (from + len - len % 4)])
  {
    hide XorByte, KeyIndex, Xored, Met;
    ghost var s := buf[..];
    var j, sections, remains := 0, len / 4, len % 4;
    NoneMet(s, from, len, key);
    for i := 0 to sections
      invariant j == i % 4 && Met(buf[..], s, from, len, key, 4 * i)
    {
      ghost var t := buf[..];
      XorWord(buf, from + 4 * i, key, j);
      MetWord(t, buf[..], s, from, len, key, i);
      j := (j + 1) % 4;
    }
    var at := from + (len - remains);
    for i := 0 to remains
      invariant Met(buf[..], s, from, len, key, len - remains + i)
    {
      MetByte(buf[..], s, from, len, key, i);
      ghost var t := buf[..];
      buf[at + i] := XorByte(buf[at + i], key[i]);
      assert buf[..] == t[at + i := XorByte(t[at + i], key[i])];
    }
    AllMet(buf[..], s, from, len, key);
    ByParts(buf[..], s, from, len, key);
    SameSlices(buf[..], buf, from, len);
    assert s[from..from + len] == old(buf[from..from + len]);
  }

  /** The whole words and the one to three bytes behind them, place by place. */
  lemma ByParts(t: seq<Byte>, s: seq<Byte>, from: nat, len: nat, key: seq<Byte>)
    requires from + len <= |s| && |key| == KEY_LEN && Met(t, s, from, len, key, len)
    ensures |t| == |s|
    ensures forall k :: from <= k < from + len - len % 4 ==> t[k] == XorByte(s[k], key[(k - from) % 16])
    ensures forall k :: from + len - len % 4 <= k < from + len ==> t[k] == XorByte(s[k], key[k - (from + len - len % 4)])
  {
    hide XorByte;
    assert len / 4 * 4 == len - len % 4;
  }

  lemma SameSlices(t: seq<Byte>, buf: array<Byte>, from: nat, len: nat)
    requires from + len <= buf.Length && t == buf[..]
    ensures t[from..from + len] == buf[from..from + len] && t[..from] == buf[..from] && t[from + len..] == buf[from + len..]
  {}

  lemma NoneMet(s: seq<Byte>, from: nat, len: nat, key: seq<Byte>)
    requires from + len <= |s| && |key| == KEY_LEN
    ensures Met(s, s, from, len, key, 0)
  {}

  lemma TailKey(i: nat, len: nat)
    requires i < len % 4
    ensures KeyIndex(len - len % 4 + i, len) == i
  {}

  /** Once more with the same key, and the bytes are back. */
  lemma XoredTwice(s: seq<Byte>, key: seq<Byte>)
    requires |key| == KEY_LEN
    ensures Xored(Xored(s, key), key) == s
  {
    hide Xored, KeyIndex;
    var t := Xored(Xored(s, key), key);
    forall i | 0 <= i < |s|
      ensures t[i] == s[i]
    {
      XorByteTwice(s[i], key[KeyIndex(i, |s|)]);
    }
  }
}
