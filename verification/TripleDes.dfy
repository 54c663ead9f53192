/** Triple DES by the bit-level engine (src/leo_standard_des_crypto.c:267-286). */
module TripleDes {
  import opened Bits
  import opened DesKeySpec
  import opened StandardDes
  import opened StandardDesCipher
  import opened Feistel

  function Other(mode: Mode): Mode {
    if mode == ENCRYPT then DECRYPT else ENCRYPT
  }

  /** Three schedules, in the order they are applied. */
  datatype Bundle = Bundle(first: seq<RoundKey>, second: seq<RoundKey>, third: seq<RoundKey>)

  /** FIPS 46-3, "Triple Data Encryption Algorithm": E-D-E with the keys in order, D-E-D with the keys in reverse. */
  function BundleFor(k1: Block, k2: Block, k3: Block, mode: Mode): Bundle {
    if mode == ENCRYPT then
      Bundle(ScheduleFor(k1, ENCRYPT), ScheduleFor(k2, DECRYPT), ScheduleFor(k3, ENCRYPT))
    else
      Bundle(ScheduleFor(k3, DECRYPT), ScheduleFor(k2, ENCRYPT), ScheduleFor(k1, DECRYPT))
  }

  function TripleCipher(block: Block, b: Bundle): Block {
    Cipher(Cipher(Cipher(block, b.first), b.second), b.third)
  }

  method ThreeDesKeySetup(key: seq<Byte>, s0: array2<Byte>, s1: array2<Byte>, s2: array2<Byte>, mode: Mode) returns (ghost b: Bundle)
    requires |key| >= 24
    requires s0.Length0 == 16 && s0.Length1 == 6 && s1.Length0 == 16 && s1.Length1 == 6 && s2.Length0 == 16 && s2.Length1 == 6
    requires s0 != s1 && s0 != s2 && s1 != s2
    modifies s0, s1, s2
    ensures b == BundleFor(key[..8], key[8..16], key[16..24], mode)
    ensures mode == ENCRYPT ==> Holds(s0, ScheduleFor(key[..8], ENCRYPT)) && Holds(s2, ScheduleFor(key[16..24], ENCRYPT))
    ensures mode == DECRYPT ==> Holds(s0, ScheduleFor(key[16..24], DECRYPT)) && Holds(s2, ScheduleFor(key[..8], DECRYPT))
    ensures Holds(s1, ScheduleFor(key[8..16], if mode == ENCRYPT then DECRYPT else ENCRYPT))
    ensures Holds(s0, b.first) && Holds(s1, b.second) && Holds(s2, b.third)
  {
    hide ScheduleFor, RowIs;
    b := BundleFor(key[..8], key[8..16], key[16..24], mode);
    if mode == ENCRYPT {
      DesKeySetup(key[..8], s0, mode);
      DesKeySetup(key[8..16], s1, Other(mode));
      DesKeySetup(key[16..24], s2, mode);
    } else {
      DesKeySetup(key[16..24], s0, mode);
      DesKeySetup(key[8..16], s1, Other(mode));
      DesKeySetup(key[..8], s2, mode);
    }
  }

  method ThreeDesCrypt(input: array<Byte>, out: array<Byte>, s0: array2<Byte>, s1: array2<Byte>, s2: array2<Byte>, ghost b: Bundle)
    requires input.Length >= 8 && out.Length >= 8
    requires Holds(s0, b.first) && Holds(s1, b.second) && Holds(s2, b.third)
    modifies out
    ensures out[..8] == TripleCipher(old(input[..8]), b)
    ensures out[8..] == old(out[8..])
  {
    hide Cipher, RowIs;
    DesCrypt(input, out, s0, b.first);
    DesCrypt(out, out, s1, b.second);
    DesCrypt(out, out, s2, b.third);
  }

  /** Three keys, both ways round: what one mode makes of a block, the other undoes. */
  lemma TripleDeciphered(block: Block, k1: Block, k2: Block, k3: Block, mode: Mode)
    ensures TripleCipher(TripleCipher(block, BundleFor(k1, k2, k3, mode)), BundleFor(k1, k2, k3, Other(mode))) == block
  {
    hide Cipher, ScheduleFor;
    var b := BundleFor(k1, k2, k3, mode);
    var x := Cipher(block, b.first);
    var y := Cipher(x, b.second);
    Deciphered(y, if mode == ENCRYPT then k3 else k1);
    Deciphered(x, k2);
    Deciphered(block, if mode == ENCRYPT then k1 else k3);
  }

  /** Which key acts where: enciphering ends with the third key and deciphering with the first, so that undoing single DES with
      that key leaves what the other two have made of the block. */
  lemma OutermostKey(block: Block, k1: Block, k2: Block, k3: Block)
    ensures Cipher(TripleCipher(block, BundleFor(k1, k2, k3, ENCRYPT)), ScheduleFor(k3, DECRYPT)) ==
            Cipher(Cipher(block, ScheduleFor(k1, ENCRYPT)), ScheduleFor(k2, DECRYPT))
    ensures Cipher(TripleCipher(block, BundleFor(k1, k2, k3, DECRYPT)), ScheduleFor(k1, ENCRYPT)) ==
            Cipher(Cipher(block, ScheduleFor(k3, DECRYPT)), ScheduleFor(k2, ENCRYPT))
  {
    hide Cipher, ScheduleFor;
    Deciphered(Cipher(Cipher(block, ScheduleFor(k1, ENCRYPT)), ScheduleFor(k2, DECRYPT)), k3);
    Deciphered(Cipher(Cipher(block, ScheduleFor(k3, DECRYPT)), ScheduleFor(k2, ENCRYPT)), k1);
  }

  /** Which key acts first: a block deciphered with it beforehand takes it out again. */
  lemma InnermostKey(block: Block, k1: Block, k2: Block, k3: Block)
    ensures TripleCipher(Cipher(block, ScheduleFor(k1, DECRYPT)), BundleFor(k1, k2, k3, ENCRYPT)) ==
            Cipher(Cipher(block, ScheduleFor(k2, DECRYPT)), ScheduleFor(k3, ENCRYPT))
    ensures TripleCipher(Cipher(block, ScheduleFor(k3, ENCRYPT)), BundleFor(k1, k2, k3, DECRYPT)) ==
            Cipher(Cipher(block, ScheduleFor(k2, ENCRYPT)), ScheduleFor(k1, DECRYPT))
  {
    hide Cipher, ScheduleFor;
    Deciphered(block, k1);
    Deciphered(block, k3);
  }

  /** Two neighbouring keys that agree cancel; with all three equal this is single DES. */
  lemma TripleCollapses(block: Block, k1: Block, k2: Block, k3: Block, mode: Mode)
    ensures k1 == k2 ==> TripleCipher(block, BundleFor(k1, k2, k3, mode)) == Cipher(block, ScheduleFor(k3, mode))
    ensures k2 == k3 ==> TripleCipher(block, BundleFor(k1, k2, k3, mode)) == Cipher(block, ScheduleFor(k1, mode))
  {
    hide Cipher, ScheduleFor;
    var b := BundleFor(k1, k2, k3, mode);
    Deciphered(block, k2);
    Deciphered(Cipher(block, b.first), k2);
  }
}
