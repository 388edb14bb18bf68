/** How a write changes files, block by block. */
module FsWrite {
  import opened Sector
  import opened FsImage

  /** A file at rest has exactly the blocks its size needs. */
  ghost predicate WholeAt(b: Blocks, nd: Node) {
    nd.size <= MAXFILE * BSIZE && Filled(b, nd, BlocksFor(nd.size))
  }

  /** Files other than `i` are untouched. */
  ghost predicate OthersSame(b0: Blocks, n0: map<nat, Node>, b1: Blocks, n1: map<nat, Node>, i: nat) {
    && n1.Keys == n0.Keys
    && forall j | j in n0 && j != i ::
      n1[j] == n0[j] && WholeAt(b0, n0[j]) && WholeAt(b1, n1[j]) && Content(b1, n1[j]) == Content(b0, n0[j])
  }

  lemma OthersTrans(b0: Blocks, n0: map<nat, Node>, b1: Blocks, n1: map<nat, Node>, b2: Blocks, n2: map<nat, Node>,
                    i: nat)
    requires OthersSame(b0, n0, b1, n1, i) && OthersSame(b1, n1, b2, n2, i)
    ensures OthersSame(b0, n0, b2, n2, i)
  {
    hide WholeAt, Content;
  }

  /** A block that holds a byte of a whole file exists. */
  lemma WholeHas(b: Blocks, nd: Node, x: nat)
    requires WholeAt(b, nd) && x < nd.size
    ensures Addr(b, nd, x / BSIZE) != 0
  {
    hide Addr;
  }

  lemma OthersGrow(b0: Blocks, n0: map<nat, Node>, b1: Blocks, n1: map<nat, Node>, i: nat, bn: nat)
    requires AllShaped(n0) && AllShaped(n1) && Kept(b0, n0, b1, n1) && OnlyNew(b0, n0, b1, n1, i, bn)
    requires i in n0 && i in n1 && n1 == n0[i := n1[i]] && forall j | j in n0 && j != i :: WholeAt(b0, n0[j])
    ensures OthersSame(b0, n0, b1, n1, i)
  {
    hide Addr, Kept, OnlyNew, ByteAt;
    forall j | j in n0 && j != i ensures WholeAt(b1, n1[j]) && Content(b1, n1[j]) == Content(b0, n0[j]) {
      OthersKept(b0, n0, b1, n1, i, bn, j, BlocksFor(n0[j].size));
      forall x: nat | x < n0[j].size ensures ByteAt(b1, n1[j], x) == ByteAt(b0, n0[j], x) {
        WholeHas(b0, n0[j], x);
        ByteKept(b0, n0, b1, n1, j, x);
      }
    }
  }

  lemma OthersWrite(data: nat, b: Blocks, n: map<nat, Node>, used: set<nat>, i: nat, bn: nat, v: Sector)
    requires AllShaped(n) && Owned(data, b, n, used) && i in n && bn < MAXFILE && Addr(b, n[i], bn) != 0
    requires forall j | j in n && j != i :: WholeAt(b, n[j])
    ensures Addr(b, n[i], bn) < |b|
    ensures OthersSame(b, n, b[Addr(b, n[i], bn) := v], n, i)
  {
    hide Addr, SlotAddr, ByteAt, Owned;
    DataWriteSlots(data, b, n, used, i, bn, v);
    var b1 := b[Addr(b, n[i], bn) := v];
    forall j | j in n && j != i ensures WholeAt(b1, n[j]) && Content(b1, n[j]) == Content(b, n[j]) {
      SameFilled(b, b1, n, j, BlocksFor(n[j].size));
      forall x: nat | x < n[j].size ensures ByteAt(b1, n[j], x) == ByteAt(b, n[j], x) {
        WholeHas(b, n[j], x);
        DataWriteByte(data, b, n, used, i, bn, v, j, x);
      }
    }
  }

  /** `chunk` lies at offset `o` of block `bn`; the file's first `m` blocks are
      otherwise as they were. */
  ghost predicate Chunk(b0: Blocks, nd0: Node, b1: Blocks, nd1: Node, bn: nat, o: nat, chunk: seq<byte>, m: nat)
    requires Shaped(nd0) && Shaped(nd1)
  {
    && (forall y: nat | y < MAXFILE * BSIZE && InChunk(y, bn, o, |chunk|) ::
          ByteAt(b1, nd1, y) == chunk[y % BSIZE - o])
    && (forall y: nat | y < MAXFILE * BSIZE && y / BSIZE < m && !InChunk(y, bn, o, |chunk|) ::
          ByteAt(b1, nd1, y) == ByteAt(b0, nd0, y))
  }

  predicate InChunk(y: nat, bn: nat, o: nat, len: nat) {
    y / BSIZE == bn && o <= y % BSIZE < o + len
  }

  /** The block with the chunk moved in. */
  function Moved(v: Sector, o: nat, chunk: seq<byte>): Sector
    requires o + |chunk| <= BSIZE
  {
    v[..o] + chunk + v[o + |chunk|..]
  }

  /** Getting block `bn` and moving the chunk in. */
  lemma ChunkWritten(data: nat, b0: Blocks, n0: map<nat, Node>, b1: Blocks, n1: map<nat, Node>, used: set<nat>,
                     i: nat, bn: nat, o: nat, chunk: seq<byte>, m: nat)
    requires AllShaped(n0) && AllShaped(n1) && Kept(b0, n0, b1, n1) && i in n0 && i in n1 && Filled(b0, n0[i], m)
    requires Owned(data, b1, n1, used) && bn < MAXFILE && Addr(b1, n1[i], bn) != 0 && o + |chunk| <= BSIZE
    ensures var x := Addr(b1, n1[i], bn);
      x < |b1| && Chunk(b0, n0[i], b1[x := Moved(b1[x], o, chunk)], n1[i], bn, o, chunk, m)
  {
    hide Addr, SlotAddr, Owned, Kept;
    DataWriteSlots(data, b1, n1, used, i, bn, ZERO_SECTOR);
    var x := Addr(b1, n1[i], bn);
    var v := Moved(b1[x], o, chunk);
    var b2 := b1[x := v];
    forall y: nat | y < MAXFILE * BSIZE && (y / BSIZE < m || y / BSIZE == bn)
      ensures InChunk(y, bn, o, |chunk|) ==> ByteAt(b2, n1[i], y) == chunk[y % BSIZE - o]
      ensures y / BSIZE < m && !InChunk(y, bn, o, |chunk|) ==> ByteAt(b2, n1[i], y) == ByteAt(b0, n0[i], y)
    {
      ChunkByte(data, b0, n0, b1, n1, used, i, bn, o, chunk, m, y);
    }
  }

  lemma ChunkByte(data: nat, b0: Blocks, n0: map<nat, Node>, b1: Blocks, n1: map<nat, Node>, used: set<nat>,
                  i: nat, bn: nat, o: nat, chunk: seq<byte>, m: nat, y: nat)
    requires AllShaped(n0) && AllShaped(n1) && Kept(b0, n0, b1, n1) && i in n0 && i in n1 && Filled(b0, n0[i], m)
    requires Owned(data, b1, n1, used) && bn < MAXFILE && Addr(b1, n1[i], bn) != 0 && o + |chunk| <= BSIZE
    requires Addr(b1, n1[i], bn) < |b1| && y < MAXFILE * BSIZE && (y / BSIZE < m || y / BSIZE == bn)
    ensures var x := Addr(b1, n1[i], bn); var b2 := b1[x := Moved(b1[x], o, chunk)];
      && (InChunk(y, bn, o, |chunk|) ==> ByteAt(b2, n1[i], y) == chunk[y % BSIZE - o])
      && (y / BSIZE < m && !InChunk(y, bn, o, |chunk|) ==> ByteAt(b2, n1[i], y) == ByteAt(b0, n0[i], y))
  {
    hide Addr, SlotAddr, Owned, Kept;
    var x := Addr(b1, n1[i], bn);
    var v := Moved(b1[x], o, chunk);
    if y / BSIZE < m {
      KeptAddr(b0, n0, b1, n1, i, y / BSIZE);
      ByteKept(b0, n0, b1, n1, i, y);
    }
    DataWriteByte(data, b1, n1, used, i, bn, v, i, y);
  }

  lemma KeptAddr(b0: Blocks, n0: map<nat, Node>, b1: Blocks, n1: map<nat, Node>, i: nat, c: nat)
    requires AllShaped(n0) && AllShaped(n1) && Kept(b0, n0, b1, n1) && i in n0 && c < MAXFILE && Addr(b0, n0[i], c) != 0
    ensures i in n1 && Addr(b1, n1[i], c) == Addr(b0, n0[i], c)
  {
    hide SlotAddr, Addr;
    AddrIsSlot(b0, n0, i, c);
    AddrIsSlot(b1, n1, i, c);
  }

  // ---- the loop of writei ------------------------------------------------

  /** How many blocks the file has once `end` bytes from its start are written. */
  function Count(size: nat, end: nat): nat {
    if BlocksFor(size) < BlocksFor(end) then BlocksFor(end) else BlocksFor(size)
  }

  /** The first `tot` bytes of `src` are in place at `off`; the rest of the file,
      its size and all other files are as they were. */
  ghost predicate Progress(b0: Blocks, n0: map<nat, Node>, b: Blocks, n: map<nat, Node>, i: nat, off: nat,
                           src: seq<byte>, tot: nat)
  {
    && AllShaped(n0) && AllShaped(n) && i in n0 && i in n && tot <= |src| && off <= n0[i].size <= MAXFILE * BSIZE
    && OthersSame(b0, n0, b, n, i)
    && n[i].size == n0[i].size && n[i].info == n0[i].info
    && Filled(b, n[i], Count(n0[i].size, off + tot))
    && forall y: nat | y < MAXFILE * BSIZE && (y < n0[i].size || y < off + tot) ::
      ByteAt(b, n[i], y) == if off <= y < off + tot then src[y - off] else ByteAt(b0, n0[i], y)
  }

  lemma ProgressStart(b: Blocks, n: map<nat, Node>, i: nat, off: nat, src: seq<byte>)
    requires AllShaped(n) && i in n && off <= n[i].size && forall j | j in n :: WholeAt(b, n[j])
    ensures Progress(b, n, b, n, i, off, src, 0)
  {
    hide Addr;
    assert WholeAt(b, n[i]);
    BlocksMono(off, n[i].size);
  }

  lemma BlocksMono(x: nat, y: nat)
    requires x <= y
    ensures BlocksFor(x) <= BlocksFor(y)
  {
  }

  /** How much of the source goes into the block at `o`. */
  function Portion(left: nat, o: nat): nat {
    if left < BSIZE - o % BSIZE then left else BSIZE - o % BSIZE
  }

  /** Block arithmetic of one round. */
  lemma RoundBlocks(size: nat, p: nat, m: nat)
    requires 0 < m && p % BSIZE + m <= BSIZE
    ensures p / BSIZE <= Count(size, p)
    ensures Count(size, p + m) == if p / BSIZE == Count(size, p) then Count(size, p) + 1 else Count(size, p)
    ensures forall y: nat :: p <= y < p + m <==> y / BSIZE == p / BSIZE && p % BSIZE <= y % BSIZE < p % BSIZE + m
  {
    var q, r := p / BSIZE, p % BSIZE;
    assert p == BSIZE * q + r;
    assert BlocksFor(p + m) == q + 1;
    assert r == 0 ==> BlocksFor(p) == q;
    assert r > 0 ==> BlocksFor(p) == q + 1;
  }

  /** Where the next round starts, and where the last one ended. */
  lemma RoundNext(left: nat, p: nat)
    requires 0 < left
    ensures var m := Portion(left, p);
      && 0 < m <= left && p % BSIZE + m <= BSIZE
      && (m < left ==> (p + m) / BSIZE == p / BSIZE + 1)
      && BlocksFor(p + m) == p / BSIZE + 1
  {
    var q, r, m := p / BSIZE, p % BSIZE, Portion(left, p);
    assert p == BSIZE * q + r;
  }

  lemma ProgressStep(b0: Blocks, n0: map<nat, Node>, b: Blocks, n: map<nat, Node>, b': Blocks, n': map<nat, Node>,
                     i: nat, off: nat, src: seq<byte>, tot: nat, m: nat)
    requires Progress(b0, n0, b, n, i, off, src, tot) && tot < |src| && off + |src| <= MAXFILE * BSIZE
    requires m == Portion(|src| - tot, off + tot)
    requires AllShaped(n') && OthersSame(b, n, b', n', i) && i in n' && n'[i].size == n[i].size
    requires n'[i].info == n[i].info
    requires var N, bn := Count(n0[i].size, off + tot), (off + tot) / BSIZE;
      && Filled(b', n'[i], if bn == N then N + 1 else N)
      && Chunk(b, n[i], b', n'[i], bn, (off + tot) % BSIZE, src[tot..tot + m], N)
    ensures Progress(b0, n0, b', n', i, off, src, tot + m)
  {
    hide ByteAt, Filled, OthersSame, BlocksFor;
    var p := off + tot;
    RoundBlocks(n0[i].size, p, m);
    OthersTrans(b0, n0, b, n, b', n', i);
    forall y: nat | y < MAXFILE * BSIZE && (y < n0[i].size || y < p + m)
      ensures ByteAt(b', n'[i], y) == if off <= y < p + m then src[y - off] else ByteAt(b0, n0[i], y)
    {
      if p <= y < p + m {
        assert InChunk(y, p / BSIZE, p % BSIZE, m);
        assert y % BSIZE - p % BSIZE == y - p by { SameOffset(p, y); }
        assert src[tot..tot + m][y - p] == src[y - off];
      } else {
        assert !InChunk(y, p / BSIZE, p % BSIZE, m);
        BelowCount(n0[i].size, p, y);
      }
    }
  }

  lemma SameOffset(p: nat, y: nat)
    requires p <= y && p / BSIZE == y / BSIZE
    ensures y % BSIZE - p % BSIZE == y - p
  {
  }

  lemma BelowCount(size: nat, p: nat, y: nat)
    requires y < size || y < p
    ensures y / BSIZE < Count(size, p)
  {
  }

  /** A byte sequence overwritten, and perhaps extended, from `off` on. */
  function Spliced(c: seq<byte>, off: nat, src: seq<byte>): seq<byte>
    requires off <= |c|
  {
    c[..off] + src + (if off + |src| <= |c| then c[off + |src|..] else [])
  }

  /** Byte by byte: the source in its place, everything else as before. */
  lemma SplicedAt(c: seq<byte>, off: nat, src: seq<byte>, x: nat)
    requires off <= |c|
    ensures |Spliced(c, off, src)| == if off + |src| > |c| then off + |src| else |c|
    ensures x < |Spliced(c, off, src)| ==>
      Spliced(c, off, src)[x] == if off <= x < off + |src| then src[x - off] else c[x]
  {
  }

  lemma ProgressDone(b0: Blocks, n0: map<nat, Node>, b: Blocks, n: map<nat, Node>, i: nat, off: nat, src: seq<byte>)
    requires Progress(b0, n0, b, n, i, off, src, |src|) && off + |src| <= MAXFILE * BSIZE
    ensures var nd := n[i].(size := if off + |src| > n0[i].size then off + |src| else n0[i].size);
      WholeAt(b, nd) && Content(b, nd) == Spliced(Content(b0, n0[i]), off, src)
  {
    hide ByteAt, Filled, OthersSame, BlocksFor;
    var nd := n[i].(size := if off + |src| > n0[i].size then off + |src| else n0[i].size);
    CountIsFinal(n0[i].size, off + |src|);
    SizeOnly(b, n[i], nd, BlocksFor(nd.size));
    forall y: nat | y < nd.size { SameByte(b, n[i], nd, y); }
    SplicedBytes(Content(b0, n0[i]), off, src, Content(b, nd));
  }

  lemma CountIsFinal(size: nat, end: nat)
    ensures Count(size, end) == BlocksFor(if end > size then end else size)
  {
    if end > size { BlocksMono(size, end); } else { BlocksMono(end, size); }
  }

  lemma SplicedBytes(c: seq<byte>, off: nat, src: seq<byte>, d: seq<byte>)
    requires off <= |c| && |d| == if off + |src| > |c| then off + |src| else |c|
    requires forall y: nat | y < |d| :: d[y] == if off <= y < off + |src| then src[y - off] else c[y]
    ensures d == Spliced(c, off, src)
  {
  }

  lemma SizeOnly(b: Blocks, nd0: Node, nd1: Node, m: nat)
    requires nd1.addrs == nd0.addrs && Filled(b, nd0, m)
    ensures Filled(b, nd1, m)
  {
    assert forall bn: nat | bn < MAXFILE :: Addr(b, nd1, bn) == Addr(b, nd0, bn);
  }

  lemma SameByte(b: Blocks, nd0: Node, nd1: Node, y: nat)
    requires nd1.addrs == nd0.addrs && Shaped(nd0) && y < MAXFILE * BSIZE
    ensures ByteAt(b, nd1, y) == ByteAt(b, nd0, y)
  {
  }

  /** All files are whole again once the written one has its new size. */
  lemma AllWhole(b0: Blocks, n0: map<nat, Node>, b: Blocks, n: map<nat, Node>, i: nat, nd: Node)
    requires OthersSame(b0, n0, b, n, i) && i in n && WholeAt(b, nd)
    ensures OthersSame(b0, n0, b, n[i := nd], i)
    ensures var n1 := n[i := nd]; forall j | j in n1 :: WholeAt(b, n1[j])
  {
    hide WholeAt, Content;
  }

  lemma OthersNodes(b0: Blocks, n0: map<nat, Node>, b: Blocks, n: map<nat, Node>, i: nat)
    requires OthersSame(b0, n0, b, n, i)
    ensures n.Keys == n0.Keys && forall j | j in n0 && j != i :: n[j] == n0[j]
  {
  }
}
