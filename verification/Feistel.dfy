/** Balanced Feistel networks over two 32-bit halves, for any round function and any list of round keys. */
module Feistel {

  type Halves = (bv32, bv32)

  type RoundFunction<!K> = (bv32, K) -> bv32

  /** One round for every key of `ks`, the sides changed after each. */
  function Rounds<K>(f: RoundFunction<K>, ks: seq<K>, l: bv32, r: bv32): Halves
    decreases |ks|
  {
    if ks == [] then (l, r) else Rounds(f, ks[1..], r, l ^ f(r, ks[0]))
  }

  function Reversed<T>(s: seq<T>): (r: seq<T>)
    ensures |r| == |s|
    ensures forall i :: 0 <= i < |s| ==> r[i] == s[|s| - 1 - i]
  {
    seq(|s|, i requires 0 <= i < |s| => s[|s| - 1 - i])
  }

  lemma {:induction false} RoundsLast<K>(f: RoundFunction<K>, ks: seq<K>, k: K, l: bv32, r: bv32)
    ensures var p := Rounds(f, ks, l, r); Rounds(f, ks + [k], l, r) == (p.1, p.0 ^ f(p.1, k))
    decreases |ks|
  {
    var all := ks + [k];
    if ks == [] {
      assert all == [k] && all[1..] == [];
    } else {
      assert all[1..] == ks[1..] + [k] && all[0] == ks[0];
      RoundsLast(f, ks[1..], k, r, l ^ f(r, ks[0]));
    }
  }

  lemma XorTwice(x: bv32, y: bv32)
    ensures (x ^ y) ^ y == x
  {}

  /** The same rounds with the keys in reverse and the sides changed lead back, whatever the round function. */
  lemma {:induction false} ReversedUndoes<K>(f: RoundFunction<K>, ks: seq<K>, l: bv32, r: bv32)
    ensures var p := Rounds(f, ks, l, r); Rounds(f, Reversed(ks), p.1, p.0) == (r, l)
    decreases |ks|
  {
    if ks == [] {
      assert Reversed(ks) == [];
    } else {
      var p := Rounds(f, ks, l, r);
      var v := l ^ f(r, ks[0]);
      assert Reversed(ks) == Reversed(ks[1..]) + [ks[0]];
      ReversedUndoes(f, ks[1..], r, v);
      RoundsLast(f, Reversed(ks[1..]), ks[0], p.1, p.0);
      XorTwice(l, f(r, ks[0]));
    }
  }

  /** Networks whose round functions agree key by key agree. */
  lemma {:induction false} SameRounds<J(!new), K(!new)>(f: RoundFunction<J>, js: seq<J>, g: RoundFunction<K>, ks: seq<K>, l: bv32, r: bv32)
    requires |js| == |ks|
    requires forall i, x :: 0 <= i < |js| ==> f(x, js[i]) == g(x, ks[i])
    ensures Rounds(f, js, l, r) == Rounds(g, ks, l, r)
    decreases |ks|
  {
    if ks != [] {
      assert f(r, js[0]) == g(r, ks[0]);
      forall i, x | 0 <= i < |js| - 1
        ensures f(x, js[1..][i]) == g(x, ks[1..][i])
      {
        assert f(x, js[i + 1]) == g(x, ks[i + 1]);
      }
      SameRounds(f, js[1..], g, ks[1..], r, l ^ f(r, js[0]));
    }
  }

  lemma NotXor(l: bv32, x: bv32)
    ensures !l ^ x == !(l ^ x)
  {}

  /** When the round function ignores complementing both its arguments, complementing the halves complements the result. */
  lemma {:induction false} ComplementedRounds<K(!new)>(f: RoundFunction<K>, ks: seq<K>, js: seq<K>, l: bv32, r: bv32)
    requires |js| == |ks|
    requires forall i, x :: 0 <= i < |ks| ==> f(!x, js[i]) == f(x, ks[i])
    ensures var p := Rounds(f, ks, l, r); Rounds(f, js, !l, !r) == (!p.0, !p.1)
    decreases |ks|
  {
    if ks != [] {
      assert f(!r, js[0]) == f(r, ks[0]);
      forall i, x | 0 <= i < |js| - 1
        ensures f(!x, js[1..][i]) == f(x, ks[1..][i])
      {
        assert f(!x, js[i + 1]) == f(x, ks[i + 1]);
      }
      NotXor(l, f(r, ks[0]));
      ComplementedRounds(f, ks[1..], js[1..], r, l ^ f(r, ks[0]));
    }
  }
}
