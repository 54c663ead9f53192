/** Counters of 32 bits and where they point in a buffer whose size is a power of two (src/ring_buffer.h:75-99, 148-158). */
module RingSlots {

  const MODULUS := 0x1_0000_0000

  /** Unsigned arithmetic of 32 bits. */
  function Wrap(x: int): (y: nat)
    ensures y < MODULUS
  {
    x % MODULUS
  }

  function Min(a: nat, b: nat): (m: nat)
    ensures m <= a && m <= b && (m == a || m == b)
  {
    if a < b then a else b
  }

  /** Bitwise and. */
  function And(x: nat, y: nat): nat {
    if x == 0 || y == 0 then 0 else 2 * And(x / 2, y / 2) + x % 2 * (y % 2)
  }

  function Pow2(k: nat): (p: nat)
    ensures p > 0
  {
    if k == 0 then 1 else 2 * Pow2(k - 1)
  }

  ghost predicate PowerOfTwo(x: nat) {
    exists k: nat :: x == Pow2(k)
  }

  /** The test of the constructor. */
  predicate IsPowerOfTwo(x: nat) {
    x != 0 && And(x, x - 1) == 0
  }

  lemma {:induction false} AndSelf(x: nat)
    ensures And(x, x) == x
  {
    if x > 0 {
      AndSelf(x / 2);
    }
  }

  lemma {:induction false} AndZero(x: nat)
    ensures And(x, 0) == 0 && And(0, x) == 0
  {}

  /** The bit test passes for the powers of two and for nothing else. */
  lemma {:induction false} PowerOfTwoTest(x: nat)
    ensures IsPowerOfTwo(x) <==> PowerOfTwo(x)
  {
    if x > 0 && x % 2 == 1 {
      if x == 1 {
        assert x == Pow2(0);
      } else {
        AndSelf(x / 2);
        assert (x - 1) / 2 == x / 2;
        forall k: nat
          ensures x != Pow2(k)
        {
          if k > 0 {
            assert Pow2(k) == 2 * Pow2(k - 1);
          }
        }
      }
    } else if x > 0 {
      PowerOfTwoTest(x / 2);
      assert (x - 1) / 2 == x / 2 - 1;
      if PowerOfTwo(x / 2) {
        var k: nat :| x / 2 == Pow2(k);
        assert x == Pow2(k + 1);
      }
      if PowerOfTwo(x) {
        var k: nat :| x == Pow2(k);
        assert k > 0 && x / 2 == Pow2(k - 1);
      }
    } else {
      forall k: nat
        ensures x != Pow2(k)
      {}
    }
  }

  /** Masking with the size less one is the remainder by the size. */
  lemma {:induction false} MaskIsRemainder(x: nat, k: nat)
    ensures And(x, Pow2(k) - 1) == x % Pow2(k)
    decreases k
  {
    if k == 0 {
      AndZero(x);
    } else {
      var p := Pow2(k - 1);
      assert Pow2(k) == 2 * p;
      MaskIsRemainder(x / 2, k - 1);
      assert (2 * p - 1) / 2 == p - 1 && (2 * p - 1) % 2 == 1;
      RemainderByDouble(x, p);
      AndZero(2 * p - 1);
      if x == 0 {
        assert And(0, 2 * p - 1) == 0;
      }
    }
  }

  lemma RemainderByDouble(x: nat, p: nat)
    requires p > 0
    ensures x % (2 * p) == 2 * (x / 2 % p) + x % 2
  {
    var h := x / 2;
    var q, m := h / p, h % p;
    assert h == q * p + m;
    assert x == q * (2 * p) + (2 * m + x % 2);
    DivisionUnique(x, 2 * p, q, 2 * m + x % 2);
  }

  lemma DivisionUnique(x: nat, d: nat, q: nat, m: nat)
    requires d > 0 && x == q * d + m && m < d
    ensures x % d == m && x / d == q
  {
    assert x == x / d * d + x % d;
    MultipleGap(q, x / d, d);
    MultipleGap(x / d, q, d);
  }

  lemma {:induction false} MultipleGap(a: int, b: int, d: nat)
    ensures a < b ==> a * d + d <= b * d
    decreases b - a
  {
    if a < b {
      assert b * d == (b - 1) * d + d;
      MultipleGap(a, b - 1, d);
    }
  }

  // ----- counters

  /** A size the constructor accepts: an int that is a power of two. */
  ghost predicate GoodSize(size: nat) {
    PowerOfTwo(size) && size < 0x8000_0000
  }

  lemma DoubleProduct(p: nat, q: nat)
    ensures 2 * (p * q) == p * (2 * q)
  {}

  lemma {:induction false} Pow2Sum(a: nat, b: nat)
    ensures Pow2(a + b) == Pow2(a) * Pow2(b)
    decreases b
  {
    if b > 0 {
      Pow2Sum(a, b - 1);
      DoubleProduct(Pow2(a), Pow2(b - 1));
    }
  }

  lemma ModulusIsPow2()
    ensures Pow2(32) == MODULUS
  {
    assert Pow2(2) == 4;
    Pow2Sum(2, 2);
    Pow2Sum(4, 4);
    Pow2Sum(8, 8);
    Pow2Sum(16, 16);
  }

  lemma {:induction false} Pow2Monotone(k: nat, m: nat)
    requires k <= m
    ensures Pow2(k) <= Pow2(m)
    decreases m
  {
    if k < m {
      Pow2Monotone(k, m - 1);
    }
  }

  lemma Distribute(a: int, b: int, c: int)
    ensures (a + b) * c == a * c + b * c
  {}

  lemma Regroup(a: int, b: int, c: int)
    ensures (a * b) * c == (b * c) * a
  {}

  lemma RemainderOfSum(q: nat, y: nat, size: nat)
    requires size > 0
    ensures (q * size + y) % size == y % size
  {
    Distribute(q, y / size, size);
    DivisionUnique(q * size + y, size, q + y / size, y % size);
  }

  lemma RemainderOfRemainder(x: nat, size: nat, m: nat, c: nat)
    requires size > 0 && m > 0 && m == size * c
    ensures x % m % size == x % size
  {
    Regroup(size, c, x / m);
    RemainderOfSum(c * (x / m), x % m, size);
  }

  /** Wrapping around at 32 bits does not disturb the place in the buffer. */
  lemma WrapKeepsSlot(x: nat, size: nat)
    requires GoodSize(size)
    ensures size > 0 && Wrap(x) % size == x % size && And(Wrap(x), size - 1) == x % size
  {
    var k: nat :| size == Pow2(k);
    MaskIsRemainder(Wrap(x), k);
    ModulusIsPow2();
    if k > 32 {
      Pow2Monotone(32, k);
    }
    Pow2Sum(k, 32 - k);
    RemainderOfRemainder(x, size, MODULUS, Pow2(32 - k));
  }

  /** The difference of two counters, whatever the wrap-arounds in between. */
  lemma Distance(x: nat, y: nat)
    requires y <= x && x - y < MODULUS
    ensures Wrap(Wrap(x) - Wrap(y)) == x - y
  {
    var a, b := x / MODULUS, y / MODULUS;
    assert Wrap(x) - Wrap(y) == x - y - (a - b) * MODULUS;
  }

  lemma Advance(x: nat, n: nat)
    ensures Wrap(Wrap(x) + n) == Wrap(x + n)
  {}

  /** Place `i` after the one that `x` points to. */
  function Slot(x: nat, i: nat, size: nat): (s: nat)
    requires size > 0
    ensures s < size
  {
    (x + i) % size
  }

  lemma SlotIs(x: nat, i: nat, size: nat)
    requires size > 0 && i <= size
    ensures Slot(x, i, size) == if x % size + i < size then x % size + i else x % size + i - size
  {
    var q, m := x / size, x % size;
    assert x == q * size + m;
    if m + i < size {
      DivisionUnique(x + i, size, q, m + i);
    } else if m + i - size < size {
      assert x + i == (q + 1) * size + (m + i - size);
      DivisionUnique(x + i, size, q + 1, m + i - size);
    }
  }
}
