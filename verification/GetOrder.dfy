/** `get_order`: the order of the smallest block that holds `v` bytes, found by
    smearing the highest bit of `v - 1` over all lower bits. */
module GetOrder {
  import opened Bits
  import opened BuddyTiling

  datatype Result = Panic | Order(ord: nat)

  /** C's `|`. */
  function Or(x: nat, y: nat): nat
    decreases x + y
  {
    if x == 0 && y == 0 then 0
    else 2 * Or(x / 2, y / 2) + (if x % 2 == 1 || y % 2 == 1 then 1 else 0)
  }

  lemma {:induction false} OrAt(x: nat, y: nat, i: nat)
    ensures Bit(Or(x, y), i) <==> Bit(x, i) || Bit(y, i)
    decreases i
  {
    if x == 0 && y == 0 {
      ZeroHasNoBit(i);
    } else if i > 0 {
      OrAt(x / 2, y / 2, i - 1);
    }
  }

  /** C's `>>`. */
  function Shr(x: nat, s: nat): nat {
    if s == 0 then x else Shr(x / 2, s - 1)
  }

  lemma {:induction false} ShrAt(x: nat, s: nat, i: nat)
    ensures Bit(Shr(x, s), i) <==> Bit(x, i + s)
  {
    if s > 0 { ShrAt(x / 2, s - 1, i); }
  }

  /** Some bit from `i` on, within `w` bits, is set in `x`. */
  ghost predicate Near(x: nat, i: nat, w: nat) {
    exists j: nat | i <= j < i + w :: Bit(x, j)
  }

  ghost predicate Smeared(y: nat, x: nat, w: nat) {
    forall i: nat :: Bit(y, i) <==> Near(x, i, w)
  }

  /** Or-ing a word with itself shifted by `w` doubles the width of the smear. */
  lemma SmearStep(y: nat, x: nat, w: nat)
    requires Smeared(y, x, w)
    ensures Smeared(Or(y, Shr(y, w)), x, 2 * w)
  {
    forall i: nat ensures Bit(Or(y, Shr(y, w)), i) <==> Near(x, i, 2 * w) {
      OrAt(y, Shr(y, w), i);
      ShrAt(y, w, i);
      assert Bit(y, i) <==> Near(x, i, w);
      assert Bit(y, i + w) <==> Near(x, i + w, w);
      if Near(x, i, 2 * w) {
        var j: nat :| i <= j < i + 2 * w && Bit(x, j);
        assert j < i + w ==> Near(x, i, w);
        assert j >= i + w ==> Near(x, i + w, w);
      }
    }
  }

  function Smear(v: nat): nat {
    var v := Or(v, Shr(v, 1));
    var v := Or(v, Shr(v, 2));
    var v := Or(v, Shr(v, 4));
    var v := Or(v, Shr(v, 8));
    Or(v, Shr(v, 16))
  }

  lemma SmearIs(v: nat)
    ensures Smeared(Smear(v), v, 32)
  {
    hide Or, Shr, Bit;
    assert Smeared(v, v, 1) by {
      forall i: nat ensures Bit(v, i) <==> Near(v, i, 1) {
        if Near(v, i, 1) { var j: nat :| i <= j < i + 1 && Bit(v, j); }
      }
    }
    var v1 := Or(v, Shr(v, 1));
    SmearStep(v, v, 1);
    var v2 := Or(v1, Shr(v1, 2));
    SmearStep(v1, v, 2);
    var v3 := Or(v2, Shr(v2, 4));
    SmearStep(v2, v, 4);
    var v4 := Or(v3, Shr(v3, 8));
    SmearStep(v3, v, 8);
    SmearStep(v4, v, 16);
  }

  /** A word below 2^k has no bit from `k` on. */
  lemma {:induction false} NoBitAbove(x: nat, k: nat, i: nat)
    requires x < Pow2(k) && k <= i
    ensures !Bit(x, i)
  {
    if k == 0 { ZeroHasNoBit(i); } else { NoBitAbove(x / 2, k - 1, i - 1); }
  }

  /** A word from 2^k up to 2^(k+1) has bit `k`. */
  lemma {:induction false} TopBit(x: nat, k: nat)
    requires Pow2(k) <= x < Pow2(k + 1)
    ensures Bit(x, k)
  {
    if k > 0 { TopBit(x / 2, k - 1); }
  }

  lemma {:induction false} OnesAt(k: nat, i: nat)
    ensures Bit(Pow2(k) - 1, i) <==> i < k
  {
    if k == 0 {
      ZeroHasNoBit(i);
    } else if i > 0 {
      assert (Pow2(k) - 1) / 2 == Pow2(k - 1) - 1;
      OnesAt(k - 1, i - 1);
    }
  }

  lemma {:induction false} PowerAt(k: nat, i: nat)
    ensures Bit(Pow2(k), i) <==> i == k
  {
    if k == 0 {
      if i > 0 { ZeroHasNoBit(i - 1); }
    } else if i > 0 {
      PowerAt(k - 1, i - 1);
    }
  }

  /** A word is below its number of bits' power of two when it has none above. */
  lemma {:induction false} BelowPow(x: nat, k: nat)
    requires forall i: nat | k <= i :: !Bit(x, i)
    ensures x < Pow2(k)
    decreases x
  {
    if x > 0 {
      if k == 0 {
        BelowPow0(x);
      } else {
        forall i: nat | k - 1 <= i ensures !Bit(x / 2, i) { assert !Bit(x, i + 1); }
        BelowPow(x / 2, k - 1);
      }
    }
  }

  lemma {:induction false} BelowPow0(x: nat)
    requires forall i: nat :: !Bit(x, i)
    ensures x == 0
  {
    assert !Bit(x, 0);
    if x > 0 {
      forall i: nat ensures !Bit(x / 2, i) { assert !Bit(x, i + 1); }
      BelowPow0(x / 2);
    }
  }

  /** Smearing rounds up to one less than a power of two. */
  lemma SmearRounds(x: nat, k: nat)
    requires k <= 32 && x < Pow2(k) && (k > 0 ==> Pow2(k - 1) <= x)
    ensures Smear(x) == Pow2(k) - 1
  {
    hide Or, Shr, Smear;
    SmearIs(x);
    forall i: nat ensures Bit(Smear(x), i) <==> i < k {
      assert Bit(Smear(x), i) <==> Near(x, i, 32);
      if i < k {
        TopBit(x, k - 1);
      } else if Near(x, i, 32) {
        var j: nat :| i <= j < i + 32 && Bit(x, j);
        NoBitAbove(x, k, j);
      }
    }
    BelowPow(Smear(x), k);
    var ones := Pow2(k) - 1;
    forall i: nat ensures Bit(ones, i) <==> i < k { OnesAt(k, i); }
    ExtensionalBits(Smear(x), ones, k);
  }

  /** The exponent of the least power of two that is at least `v`. */
  lemma {:induction false} Exponent(v: nat, w: nat) returns (k: nat)
    requires 1 <= v <= Pow2(w)
    ensures k <= w && v <= Pow2(k) && (k > 0 ==> Pow2(k - 1) < v)
  {
    if w == 0 || Pow2(w - 1) < v {
      k := w;
    } else {
      k := Exponent(v, w - 1);
    }
  }

  lemma {:induction false} Pow2Grows(j: nat, k: nat)
    requires j <= k
    ensures Pow2(j) <= Pow2(k)
  {
    if j < k { Pow2Grows(j, k - 1); }
  }

  /** The loop that finds the only bit of a power of two, or runs to 32. */
  method LowestBit(v: nat) returns (ord: nat)
    requires v < 0x1_0000_0000
    ensures ord <= 32 && forall i: nat | i < ord :: !Bit(v, i)
    ensures ord < 32 ==> Bit(v, ord)
  {
    ord := 0;
    while ord < 32
      invariant ord <= 32 && forall i: nat | i < ord :: !Bit(v, i)
    {
      if Bit(v, ord) { break; }
      ord := ord + 1;
    }
  }

  /** `get_order` answers exactly for 1 to 4096 bytes, with the least order from
      6 on whose blocks hold `v` bytes; otherwise it panics. */
  method Get(v: nat) returns (r: Result)
    requires v < 0x1_0000_0000
    ensures r.Panic? <==> v == 0 || 4096 < v
    ensures r.Order? ==> IsOrder(r.ord) && v <= Pow2(r.ord)
    ensures r.Order? ==> forall o: nat | MIN_ORD <= o && v <= Pow2(o) :: r.ord <= o
  {
    hide Smear, Bit, Pow2;
    var x := if v == 0 then 0xFFFF_FFFF else v - 1;    // v-- wraps around
    ghost var k := Rounded(v, x);
    var y := (Smear(x) + 1) % 0x1_0000_0000;
    var ord := LowestBit(y);
    Located(y, k, ord);
    if ord < MIN_ORD {
      ord := MIN_ORD;
    }
    Least(v, k);
    r := if ord > MAX_ORD then Panic else Order(ord);
  }

  lemma Rounded(v: nat, x: nat) returns (k: nat)
    requires v < 0x1_0000_0000 && x == if v == 0 then 0xFFFF_FFFF else v - 1
    ensures k <= 32 && (v == 0 ==> k == 32) && (v > 0 ==> v <= Pow2(k) && (k > 0 ==> Pow2(k - 1) < v))
    ensures (Smear(x) + 1) % 0x1_0000_0000 == if k == 32 then 0 else Pow2(k)
  {
    hide Smear;
    Pow2Of32();
    k := 32;
    if v > 0 { k := Exponent(v, 32); }
    SmearRounds(x, k);
    if k < 32 {
      Pow2Grows(k, 31);
      assert 2 * Pow2(31) == Pow2(32);
    }
  }

  lemma Located(y: nat, k: nat, ord: nat)
    requires k <= 32 && y == (if k == 32 then 0 else Pow2(k))
    requires ord <= 32 && (forall i: nat | i < ord :: !Bit(y, i)) && (ord < 32 ==> Bit(y, ord))
    ensures ord == k
  {
    if k == 32 { ZeroHasNoBit(ord); } else { PowerAt(k, k); PowerAt(k, ord); }
  }

  /** The exponent is the least one, and 4096 separates the two outcomes. */
  lemma Least(v: nat, k: nat)
    requires v > 0 ==> v <= Pow2(k) && (k > 0 ==> Pow2(k - 1) < v)
    requires v == 0 ==> k == 32
    ensures v > 0 ==> forall o: nat | v <= Pow2(o) :: k <= o
    ensures v > 0 ==> (k <= MAX_ORD <==> v <= 4096)
    ensures k <= MIN_ORD && v > 0 ==> v <= Pow2(MIN_ORD)
  {
    assert Pow2(MAX_ORD) == 4096;
    forall o: nat | v > 0 && v <= Pow2(o) ensures k <= o {
      if o < k { Pow2Grows(o, k - 1); }
    }
    if k <= MAX_ORD { Pow2Grows(k, MAX_ORD); }
    if k <= MIN_ORD { Pow2Grows(k, MIN_ORD); }
  }
}
