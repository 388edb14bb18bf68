/** The free-block bitmap: bit b % 8 of byte b / 8 tells whether block b is in
    use.  A bitmap sector covers 4096 blocks. */
module FsBitmap {
  import opened Bits
  import opened Sector

  const BPB := 4096    // bits per bitmap sector

  predicate IsUsed(bm: seq<byte>, b: nat) {
    b / 8 < |bm| && Bit(bm[b / 8], b % 8)
  }

  function UsedSet(bm: seq<byte>, size: nat): set<nat> {
    set b: nat | 0 <= b < size && IsUsed(bm, b)
  }

  /** Block `b` is in use if bit `b % 8` of byte `b / 8` is set. */
  lemma UsedBit(bm: seq<byte>, b: nat)
    requires b / 8 < |bm|
    ensures IsUsed(bm, b) <==> (bm[b / 8] as int) / Pow2(b % 8) % 2 == 1
  {
    BitIs(bm[b / 8], b % 8);
  }

  lemma ByteBits(x: byte, i: nat)
    requires i < 8
    ensures SetBit(x, i) < 256 && ClearBit(x, i) < 256
  {
    assert Pow2(8) == 256;
    BitsInWidth(x, i, 8);
  }

  function Mark(bm: seq<byte>, b: nat): (r: seq<byte>)
    requires b / 8 < |bm|
  {
    ByteBits(bm[b / 8], b % 8);
    bm[b / 8 := SetBit(bm[b / 8], b % 8)]
  }

  function Unmark(bm: seq<byte>, b: nat): (r: seq<byte>)
    requires b / 8 < |bm|
  {
    ByteBits(bm[b / 8], b % 8);
    bm[b / 8 := ClearBit(bm[b / 8], b % 8)]
  }

  lemma MarkAt(bm: seq<byte>, b: nat, c: nat)
    requires b / 8 < |bm|
    ensures IsUsed(Mark(bm, b), c) <==> c == b || IsUsed(bm, c)
  {
    if c / 8 == b / 8 { SetBitAt(bm[b / 8], b % 8, c % 8); }
  }

  lemma UnmarkAt(bm: seq<byte>, b: nat, c: nat)
    requires b / 8 < |bm|
    ensures IsUsed(Unmark(bm, b), c) <==> c != b && IsUsed(bm, c)
  {
    if c / 8 == b / 8 { ClearBitAt(bm[b / 8], b % 8, c % 8); }
  }

  /** Setting a bit adds the block to those in use, and clearing it removes it. */
  lemma MarkUsed(bm: seq<byte>, size: nat, b: nat)
    requires b < size && b / 8 < |bm|
    ensures UsedSet(Mark(bm, b), size) == UsedSet(bm, size) + {b}
    ensures UsedSet(Unmark(bm, b), size) == UsedSet(bm, size) - {b}
  {
    hide IsUsed, Mark, Unmark;
    forall c: nat { MarkAt(bm, b, c); }
    forall c: nat { UnmarkAt(bm, b, c); }
  }
}
