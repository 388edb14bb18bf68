/** Words of bits, as C's unsigned integers hold them.

    A word is a natural number; `Bit(x, i)` is C's `x & (1 << i)`,
    `SetBit(x, i)` is `x | (1 << i)` and `ClearBit(x, i)` is `x & ~(1 << i)`.
    The lemmas say how each operation changes every bit. */
module Bits {

  function Pow2(k: nat): (p: nat)
    ensures p > 0
  {
    if k == 0 then 1 else 2 * Pow2(k - 1)
  }

  lemma Pow2Of32()
    ensures Pow2(32) == 0x1_0000_0000
  {
    assert Pow2(8) == 0x100;
    assert Pow2(16) == 0x1_0000;
    assert Pow2(24) == 0x100_0000;
  }

  predicate Bit(x: nat, i: nat) {
    if i == 0 then x % 2 == 1 else Bit(x / 2, i - 1)
  }

  /** C's `x >> i & 1`. */
  lemma {:induction false} BitIs(x: nat, i: nat)
    ensures Bit(x, i) <==> x / Pow2(i) % 2 == 1
  {
    if i > 0 {
      BitIs(x / 2, i - 1);
      Halved(x, Pow2(i - 1));
    }
  }

  lemma Halved(x: nat, m: nat)
    requires m > 0
    ensures x / 2 / m == x / (2 * m)
  {
    var q := x / 2 / m;
    var r := x / 2 % m;
    assert x == 2 * (m * q + r) + x % 2;
    assert x == (2 * m) * q + (2 * r + x % 2);
    Quotient(x, 2 * m, q, 2 * r + x % 2);
  }

  lemma Quotient(x: nat, d: nat, q: nat, r: nat)
    requires r < d && x == d * q + r
    ensures x / d == q
  {
    var k := x / d;
    if k < q { Steps(d, k, q); }
    if q < k { Steps(d, q, k); }
  }

  lemma Steps(d: nat, a: nat, b: nat)
    requires a < b
    ensures d * a + d <= d * b
  {
    assert d * b == d * a + d * (b - a);
    assert d * (b - a) == d + d * (b - a - 1);
  }

  function SetBit(x: nat, i: nat): nat {
    if i == 0 then x - x % 2 + 1 else 2 * SetBit(x / 2, i - 1) + x % 2
  }

  function ClearBit(x: nat, i: nat): nat {
    if i == 0 then x - x % 2 else 2 * ClearBit(x / 2, i - 1) + x % 2
  }

  lemma {:induction false} SetBitAt(x: nat, i: nat, j: nat)
    ensures Bit(SetBit(x, i), j) <==> i == j || Bit(x, j)
  {
    if i > 0 && j > 0 {
      SetBitAt(x / 2, i - 1, j - 1);
    }
  }

  lemma {:induction false} ClearBitAt(x: nat, i: nat, j: nat)
    ensures Bit(ClearBit(x, i), j) <==> i != j && Bit(x, j)
  {
    if i > 0 && j > 0 {
      ClearBitAt(x / 2, i - 1, j - 1);
    }
  }

  /** Neither operation leaves the word's width. */
  lemma {:induction false} BitsInWidth(x: nat, i: nat, w: nat)
    requires i < w && x < Pow2(w)
    ensures SetBit(x, i) < Pow2(w) && ClearBit(x, i) < Pow2(w)
  {
    if i > 0 {
      BitsInWidth(x / 2, i - 1, w - 1);
    }
  }

  lemma {:induction false} ZeroHasNoBit(i: nat)
    ensures !Bit(0, i)
  {
    if i > 0 { ZeroHasNoBit(i - 1); }
  }

  /** A non-zero word of `w` bits has a bit set, and this finds one. */
  lemma {:induction false} SomeBit(x: nat, w: nat) returns (i: nat)
    requires 0 < x < Pow2(w)
    ensures i < w && Bit(x, i)
  {
    if x % 2 == 1 {
      i := 0;
    } else {
      i := SomeBit(x / 2, w - 1);
      i := i + 1;
    }
  }

  lemma {:induction false} ExtensionalBits(x: nat, y: nat, w: nat)
    requires x < Pow2(w) && y < Pow2(w)
    requires forall i: nat | i < w :: Bit(x, i) <==> Bit(y, i)
    ensures x == y
  {
    if w > 0 {
      assert Bit(x, 0) <==> Bit(y, 0);
      forall i: nat | i < w - 1 ensures Bit(x / 2, i) <==> Bit(y / 2, i) {
        assert Bit(x, i + 1) <==> Bit(y, i + 1);
      }
      ExtensionalBits(x / 2, y / 2, w - 1);
    }
  }

  /** The word with its lowest `c` bits set. */
  lemma {:induction false} LowBits(c: nat, j: nat)
    ensures Bit(Pow2(c) - 1, j) <==> j < c
  {
    if c == 0 {
      ZeroHasNoBit(j);
    } else if j > 0 {
      LowBits(c - 1, j - 1);
    }
  }

  lemma {:induction false} Pow2Mono(a: nat, b: nat)
    requires a <= b
    ensures Pow2(a) <= Pow2(b)
    decreases b - a
  {
    if a < b { Pow2Mono(a, b - 1); }
  }

  lemma {:induction false} Pow2Add(a: nat, b: nat)
    ensures Pow2(a) * Pow2(b) == Pow2(a + b)
  {
    if a > 0 {
      Pow2Add(a - 1, b);
      Associates(2, Pow2(a - 1), Pow2(b));
    }
  }

  lemma Associates(a: nat, b: nat, c: nat)
    ensures a * b * c == a * (b * c)
  {
  }

  lemma Pow2Of12()
    ensures Pow2(12) == 4096
  {
  }
}
