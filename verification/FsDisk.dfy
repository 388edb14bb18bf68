/** The sectors of a file system's disk: where its inodes, bitmap and blocks lie,
    and how an inode is laid out in bytes. */
module FsDisk {
  import opened Sector
  import opened FsImage

  const IPB := 8            // inodes per sector
  const NODE_WORDS := 16    // words of an inode

  function InodeSector(i: nat): nat { i / IPB + 2 }

  function BitmapStart(ninodes: nat): nat { ninodes / IPB + 3 }

  // ---- inodes ------------------------------------------------------------

  /** Two shorts in a word. */
  function Pack(low: Short, high: Short): Word { low % 0x1_0000 + 0x1_0000 * (high % 0x1_0000) }

  function Signed(x: int): Short
    requires 0 <= x < 0x1_0000
  {
    if x < 0x8000 then x else x - 0x1_0000
  }

  function Low(w: Word): Short { Signed(w % 0x1_0000) }

  function High(w: Word): Short { Signed(w / 0x1_0000) }

  /** Word `w` of an inode's 64 bytes. */
  function NodeWord(nd: Node, w: nat): Word
    requires Shaped(nd) && w < NODE_WORDS
  {
    if w == 0 then Pack(nd.info.kind, nd.info.major)
    else if w == 1 then Pack(nd.info.minor, nd.info.nlink)
    else if w == 2 then nd.size
    else nd.addrs[w - 3]
  }

  /** A sector of inodes, from number `first` on; `rest` is what lies behind the last. */
  function NodesSector(dinodes: seq<Node>, first: nat, rest: Sector): Sector {
    seq(SECTOR_SIZE, p requires 0 <= p < SECTOR_SIZE => NodeByte(dinodes, first, rest, p))
  }

  function NodeByte(dinodes: seq<Node>, first: nat, rest: Sector, p: nat): byte
    requires p < SECTOR_SIZE
  {
    var i := first + p / 64;
    if i < |dinodes| && Shaped(dinodes[i]) then WordByte(NodeWord(dinodes[i], p % 64 / 4), p % 4) else rest[p]
  }

  /** Inode `j` of a sector. */
  function NodeIn(s: Sector, j: nat): (nd: Node)
    requires j < IPB
    ensures Shaped(nd)
  {
    var w := NODE_WORDS * j;
    Node(Info(Low(GetWord(s, w)), High(GetWord(s, w)), Low(GetWord(s, w + 1)), High(GetWord(s, w + 1))),
         GetWord(s, w + 2), seq<Word>(NDIRECT + 1, k requires 0 <= k <= NDIRECT => GetWord(s, w + 3 + k)))
  }

  lemma Unpacked(low: Short, high: Short)
    ensures Low(Pack(low, high)) == low && High(Pack(low, high)) == high
  {
    var a, b := low % 0x1_0000, high % 0x1_0000;
    assert (a + 0x1_0000 * b) % 0x1_0000 == a && (a + 0x1_0000 * b) / 0x1_0000 == b;
  }

  lemma NodeWordIn(dinodes: seq<Node>, first: nat, rest: Sector, j: nat, w: nat)
    requires j < IPB && w < NODE_WORDS && first + j < |dinodes| && Shaped(dinodes[first + j])
    ensures GetWord(NodesSector(dinodes, first, rest), NODE_WORDS * j + w) == NodeWord(dinodes[first + j], w)
  {
    hide NodeWord, WordByte;
    var s, nd := NodesSector(dinodes, first, rest), dinodes[first + j];
    forall k: nat | k < 4 ensures s[4 * (NODE_WORDS * j + w) + k] == WordByte(NodeWord(nd, w), k) {
      var p := 4 * (NODE_WORDS * j + w) + k;
      assert p == 64 * j + (4 * w + k);
      assert p / 64 == j && p % 64 == 4 * w + k && p % 4 == k;
    }
    FromBytes(NodeWord(nd, w));
  }

  /** An inode written to its sector is read back. */
  lemma NodeRoundTrip(dinodes: seq<Node>, first: nat, rest: Sector, j: nat)
    requires j < IPB && first + j < |dinodes| && Shaped(dinodes[first + j])
    ensures NodeIn(NodesSector(dinodes, first, rest), j) == dinodes[first + j]
  {
    hide NodesSector, GetWord, Low, High, Pack;
    var s, nd := NodesSector(dinodes, first, rest), dinodes[first + j];
    forall w: nat | w < NODE_WORDS ensures GetWord(s, NODE_WORDS * j + w) == NodeWord(nd, w) {
      NodeWordIn(dinodes, first, rest, j, w);
    }
    assert GetWord(s, NODE_WORDS * j + 0) == NodeWord(nd, 0) && GetWord(s, NODE_WORDS * j + 1) == NodeWord(nd, 1);
    assert GetWord(s, NODE_WORDS * j + 2) == NodeWord(nd, 2);
    Unpacked(nd.info.kind, nd.info.major);
    Unpacked(nd.info.minor, nd.info.nlink);
    forall k | 0 <= k <= NDIRECT ensures NodeIn(s, j).addrs[k] == nd.addrs[k] {
      assert GetWord(s, NODE_WORDS * j + (3 + k)) == NodeWord(nd, 3 + k);
    }
    assert NodeIn(s, j).addrs == nd.addrs;
  }

  // ---- the whole disk ----------------------------------------------------

  function SectorAt(blocks: Blocks, bitmap: seq<byte>, dinodes: seq<Node>, x: nat): Sector
    requires x < |blocks|
  {
    var k := x - BitmapStart(|dinodes|);
    if 2 <= x && (x - 2) * IPB < |dinodes| then NodesSector(dinodes, (x - 2) * IPB, blocks[x])
    else if 0 <= k < |bitmap| / SECTOR_SIZE then BitmapSector(bitmap, k)
    else blocks[x]
  }

  function BitmapSector(bitmap: seq<byte>, k: nat): Sector
    requires k < |bitmap| / SECTOR_SIZE
  {
    bitmap[k * SECTOR_SIZE..(k + 1) * SECTOR_SIZE]
  }

  /** The disk's sectors, as the buffer cache shows them. */
  function ImageOf(blocks: Blocks, bitmap: seq<byte>, dinodes: seq<Node>): (d: seq<Sector>)
    ensures |d| == |blocks|
  {
    seq(|blocks|, x requires 0 <= x < |blocks| => SectorAt(blocks, bitmap, dinodes, x))
  }

  // ---- the format --------------------------------------------------------

  lemma Halves(s: seq<byte>, k: nat, low: Short, high: Short)
    requires k + 4 <= |s| && Int32(s, k) == Pack(low, high)
    ensures Short16(s, k) == low % 0x1_0000 && Short16(s, k + 2) == high % 0x1_0000
  {
    assert Short16(s, k) < 0x1_0000 && Short16(s, k + 2) < 0x1_0000;
  }

  lemma NodeSectorAt(blocks: Blocks, bitmap: seq<byte>, dinodes: seq<Node>, i: nat)
    requires i < |dinodes| && i / 8 + 2 < |blocks|
    ensures ImageOf(blocks, bitmap, dinodes)[i / 8 + 2] == NodesSector(dinodes, i / 8 * 8, blocks[i / 8 + 2])
  {
    hide NodesSector;
  }

  /** Inode `i` in bytes: from byte 64 * (i % 8) of sector i / 8 + 2 on four shorts, the
      size, and the addresses. */
  lemma NodeFormat(blocks: Blocks, bitmap: seq<byte>, dinodes: seq<Node>, i: nat)
    requires i < |dinodes| && Shaped(dinodes[i]) && i / 8 + 2 < |blocks|
    ensures var s, o, nd := ImageOf(blocks, bitmap, dinodes)[i / 8 + 2], 64 * (i % 8), dinodes[i];
      && Short16(s, o) == nd.info.kind % 0x1_0000 && Short16(s, o + 2) == nd.info.major % 0x1_0000
      && Short16(s, o + 4) == nd.info.minor % 0x1_0000 && Short16(s, o + 6) == nd.info.nlink % 0x1_0000
      && Int32(s, o + 8) == nd.size && forall k | 0 <= k <= 12 :: Int32(s, o + 12 + 4 * k) == nd.addrs[k]
  {
    hide ImageOf, NodesSector, GetWord, Pack, Int32, Short16;
    NodeSectorAt(blocks, bitmap, dinodes, i);
    var s, j, nd := NodesSector(dinodes, i / 8 * 8, blocks[i / 8 + 2]), i % 8, dinodes[i];
    forall w: nat | w < 16 ensures Int32(s, 64 * j + 4 * w) == NodeWord(nd, w) {
      NodeWordIn(dinodes, i / 8 * 8, blocks[i / 8 + 2], j, w);
      WordIsBytes(s, 16 * j + w);
      assert 4 * (16 * j + w) == 64 * j + 4 * w;
    }
    assert Int32(s, 64 * j + 4 * 0) == NodeWord(nd, 0) && Int32(s, 64 * j + 4 * 1) == NodeWord(nd, 1);
    assert Int32(s, 64 * j + 4 * 2) == NodeWord(nd, 2);
    Halves(s, 64 * j, nd.info.kind, nd.info.major);
    Halves(s, 64 * j + 4, nd.info.minor, nd.info.nlink);
    forall k | 0 <= k <= 12 ensures Int32(s, 64 * j + 12 + 4 * k) == nd.addrs[k] {
      assert Int32(s, 64 * j + 4 * (3 + k)) == NodeWord(nd, 3 + k);
    }
  }

  /** Byte `p` of the bitmap: it begins after the inodes' sectors and one more. */
  lemma BitmapFormat(blocks: Blocks, bitmap: seq<byte>, dinodes: seq<Node>, p: nat)
    requires p < |bitmap| && |bitmap| % 512 == 0 && |dinodes| / 8 + 3 + p / 512 < |blocks|
    ensures ImageOf(blocks, bitmap, dinodes)[|dinodes| / 8 + 3 + p / 512][p % 512] == bitmap[p]
  {
    hide NodesSector;
    var k, x := p / 512, |dinodes| / 8 + 3 + p / 512;
    assert (x - 2) * IPB >= |dinodes| && k < |bitmap| / SECTOR_SIZE;
    assert SectorAt(blocks, bitmap, dinodes, x) == BitmapSector(bitmap, k);
    assert p == k * SECTOR_SIZE + p % 512;
  }

  /** At most sector `x` differs. */
  ghost predicate Except(d0: seq<Sector>, d1: seq<Sector>, x: nat) {
    |d0| == |d1| && forall y | 0 <= y < |d0| && y != x :: d1[y] == d0[y]
  }

  lemma BlockChanges(b: Blocks, bm: seq<byte>, dn: seq<Node>, a: nat, v: Sector)
    requires a < |b|
    ensures Except(ImageOf(b, bm, dn), ImageOf(b[a := v], bm, dn), a)
  {
    hide NodesSector;
  }

  lemma ByteChanges(b: Blocks, bm: seq<byte>, dn: seq<Node>, i: nat, v: byte)
    requires i < |bm|
    ensures Except(ImageOf(b, bm, dn), ImageOf(b, bm[i := v], dn), BitmapStart(|dn|) + i / SECTOR_SIZE)
  {
    hide NodesSector, BitmapSector;
    forall k: nat | k < |bm| / SECTOR_SIZE && k != i / SECTOR_SIZE
      ensures BitmapSector(bm[i := v], k) == BitmapSector(bm, k)
    {
      OtherBytes(bm, i, v, k);
    }
  }

  lemma OtherBytes(bm: seq<byte>, i: nat, v: byte, k: nat)
    requires i < |bm| && k < |bm| / SECTOR_SIZE && k != i / SECTOR_SIZE
    ensures BitmapSector(bm[i := v], k) == BitmapSector(bm, k)
  {
  }

  lemma NodeChanges(b: Blocks, bm: seq<byte>, dn: seq<Node>, i: nat, v: Node)
    requires i < |dn|
    ensures Except(ImageOf(b, bm, dn), ImageOf(b, bm, dn[i := v]), InodeSector(i))
  {
    hide NodesSector, BitmapSector;
    forall first: nat, rest: Sector | first % IPB == 0 && first != i / IPB * IPB
      ensures NodesSector(dn[i := v], first, rest) == NodesSector(dn, first, rest)
    {
      OtherNodes(dn, i, v, first, rest);
    }
    forall y: nat | y < |b| && y != InodeSector(i)
      ensures SectorAt(b, bm, dn[i := v], y) == SectorAt(b, bm, dn, y)
    {
      if 2 <= y { assert (y - 2) * IPB % IPB == 0; }
    }
  }

  lemma OtherNodes(dn: seq<Node>, i: nat, v: Node, first: nat, rest: Sector)
    requires i < |dn| && first % IPB == 0 && first != i / IPB * IPB
    ensures NodesSector(dn[i := v], first, rest) == NodesSector(dn, first, rest)
  {
    hide NodeWord, WordByte;
    forall p: nat | p < SECTOR_SIZE ensures NodeByte(dn[i := v], first, rest, p) == NodeByte(dn, first, rest, p) {
      assert p / 64 < IPB;
      assert first + p / 64 != i;
    }
  }

  // ---- log writes --------------------------------------------------------

  /** The disk with blocks written to sectors, one after the other. */
  ghost function Applied(d: seq<Sector>, writes: seq<(nat, Sector)>): (r: seq<Sector>)
    ensures |r| == |d|
  {
    if writes == [] then d
    else
      var r, w := Applied(d, writes[..|writes| - 1]), writes[|writes| - 1];
      if w.0 < |d| then r[w.0 := w.1] else r
  }

  /** Logging the one sector that has changed brings the log up to date. */
  lemma AppliedMore(d: seq<Sector>, writes: seq<(nat, Sector)>, now: seq<Sector>, x: nat)
    requires x < |now| && Except(Applied(d, writes), now, x)
    ensures Applied(d, writes + [(x, now[x])]) == now
  {
    assert (writes + [(x, now[x])])[..|writes|] == writes;
  }

  // ---- reading a file from a disk ----------------------------------------

  /** The inode a disk holds. */
  function NodeOn(d: seq<Sector>, i: nat): (nd: Node)
    requires InodeSector(i) < |d|
    ensures Shaped(nd)
  {
    NodeIn(d[InodeSector(i)], i % IPB)
  }

  lemma NodeOnImage(b: Blocks, bm: seq<byte>, dn: seq<Node>, i: nat)
    requires i < |dn| && InodeSector(i) < |b| && Shaped(dn[i])
    ensures NodeOn(ImageOf(b, bm, dn), i) == dn[i]
  {
    hide NodesSector;
    NodeRoundTrip(dn, i / IPB * IPB, b[InodeSector(i)], i % IPB);
  }

  /** The file is there, and has these bytes. */
  ghost predicate FileOn(d: seq<Sector>, i: nat, c: seq<byte>) {
    && InodeSector(i) < |d| && NodeOn(d, i).size <= MAXFILE * BSIZE
    && Content(d, NodeOn(d, i)) == c
  }
}
