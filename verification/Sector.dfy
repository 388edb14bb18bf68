/** Disk sectors as bytes, and the 32-bit little-endian words inside them. */
module Sector {

  type byte = x: int | 0 <= x < 256

  const SECTOR_SIZE := 512
  const SECTOR_WORDS := 128

  const ZERO_SECTOR: seq<byte> := seq(SECTOR_SIZE, _ => 0)

  type Sector = s: seq<byte> | |s| == SECTOR_SIZE witness ZERO_SECTOR

  type Word = x: int | 0 <= x < 0x1_0000_0000

  function GetWord(s: Sector, j: nat): Word
    requires j < SECTOR_WORDS
  {
    var k := 4 * j;
    s[k] as int + 0x100 * (s[k + 1] as int) + 0x1_0000 * (s[k + 2] as int) + 0x100_0000 * (s[k + 3] as int)
  }

  /** Two and four bytes as C's little-endian integers. */
  ghost function Short16(s: seq<byte>, k: nat): nat
    requires k + 2 <= |s|
  {
    (s[k] as int) + 0x100 * (s[k + 1] as int)
  }

  ghost function Int32(s: seq<byte>, k: nat): nat
    requires k + 4 <= |s|
  {
    Short16(s, k) + 0x1_0000 * Short16(s, k + 2)
  }

  lemma WordIsBytes(s: Sector, j: nat)
    requires j < SECTOR_WORDS
    ensures GetWord(s, j) == Int32(s, 4 * j)
  {
  }

  /** Byte `k` of a word, the lowest first. */
  function WordByte(w: Word, k: nat): byte
    requires k < 4
  {
    if k == 0 then w % 0x100 else if k == 1 then w / 0x100 % 0x100
    else if k == 2 then w / 0x1_0000 % 0x100 else w / 0x100_0000
  }

  function PutWord(s: Sector, j: nat, v: Word): Sector
    requires j < SECTOR_WORDS
  {
    var k := 4 * j;
    s[k := WordByte(v, 0)][k + 1 := WordByte(v, 1)][k + 2 := WordByte(v, 2)][k + 3 := WordByte(v, 3)]
  }

  /** A word is made of its bytes. */
  lemma FromBytes(w: Word)
    ensures WordByte(w, 0) + 0x100 * WordByte(w, 1) + 0x1_0000 * WordByte(w, 2) + 0x100_0000 * WordByte(w, 3) == w
  {
    var h := w / 0x1_0000;
    assert w == 0x1_0000 * h + w % 0x1_0000;
    LowBytes(w);
    LowBytes(h);
  }

  lemma LowBytes(w: nat)
    ensures w % 0x1_0000 == w % 0x100 + 0x100 * (w / 0x100 % 0x100)
  {
    var q := w / 0x100;
    var a, r := q / 0x100, q % 0x100;
    assert w == 0x100 * q + w % 0x100 && q == 0x100 * a + r;
    Remainder(a, w % 0x100 + 0x100 * r);
  }

  lemma Remainder(a: nat, r: nat)
    requires r < 0x1_0000
    ensures (0x1_0000 * a + r) % 0x1_0000 == r
  {
  }

  lemma PutAt(s: Sector, j: nat, v: Word, p: nat)
    requires j < SECTOR_WORDS && p < SECTOR_SIZE
    ensures PutWord(s, j, v)[p] == if 4 * j <= p < 4 * j + 4 then WordByte(v, p - 4 * j) else s[p]
  {
    hide WordByte;
  }

  /** A word put is the word got, and the other words stay. */
  lemma GetPut(s: Sector, j: nat, v: Word, k: nat)
    requires j < SECTOR_WORDS && k < SECTOR_WORDS
    ensures GetWord(PutWord(s, j, v), k) == if k == j then v else GetWord(s, k)
  {
    hide PutWord, WordByte;
    forall b: nat | b < 4 ensures PutWord(s, j, v)[4 * k + b] == if k == j then WordByte(v, b) else s[4 * k + b] {
      PutAt(s, j, v, 4 * k + b);
    }
    FromBytes(v);
  }

  lemma ZeroWords(j: nat)
    requires j < SECTOR_WORDS
    ensures GetWord(ZERO_SECTOR, j) == 0
  {
    assert ZERO_SECTOR[4 * j] == 0 && ZERO_SECTOR[4 * j + 1] == 0;
    assert ZERO_SECTOR[4 * j + 2] == 0 && ZERO_SECTOR[4 * j + 3] == 0;
  }
}
