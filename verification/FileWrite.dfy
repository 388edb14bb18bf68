/** Writing an open file in chunks that each fit one log transaction, and what a
    crash in the middle of it leaves. */
module FileWrite {
  import opened Params
  import opened Collections
  import opened Sector
  import opened FsImage
  import opened FsWrite
  import opened FsBitmap
  import opened FsDisk
  import opened Fs
  import opened FsCrash
  import opened LogRuns
  import L = LogMachine

  const MAX_CHUNK := (LOGSIZE - 1 - 1 - 2) / 2 * 512
  const MAX_SIZE := MAXFILE * BSIZE

  /** An open inode with its read and write position. */
  class OpenFile {
    const ip: Inode
    var off: Word

    constructor (ip: Inode, off: Word)
      ensures this.ip == ip && this.off == off
    {
      this.ip, this.off := ip, off;
    }
  }

  // ---- the budget of one transaction -------------------------------------

  /** A chunk at any offset lies in at most four blocks; with the indirect block, the
      inode and the only bitmap sector that makes seven. */
  lemma ChunkBudget(fs: FileSystem, off: nat, n: nat)
    requires fs.size <= BPB && n <= MAX_CHUNK
    ensures |fs.Bitmaps()| + Takes(off, n) <= 7
  {
    var k := BitmapStart(fs.ninodes);
    assert fs.Bitmaps() <= {k};
    CardSubset(fs.Bitmaps(), {k});
  }

  // ---- how far a write gets ----------------------------------------------

  function Max(a: nat, b: nat): nat { if a > b then a else b }

  /** The bytes of the chunks before the first one that does not fit a file. */
  function Accepted(off: nat, n: nat): nat
    requires off <= MAX_SIZE
  {
    if off + n <= MAX_SIZE then n else (MAX_SIZE - off) / MAX_CHUNK * MAX_CHUNK
  }

  lemma WholeDown(x: nat)
    ensures x / MAX_CHUNK * MAX_CHUNK <= x < x / MAX_CHUNK * MAX_CHUNK + MAX_CHUNK && MAX_CHUNK == 1536
    ensures x / MAX_CHUNK * MAX_CHUNK % MAX_CHUNK == 0
  {
  }

  lemma AcceptedIs(off: nat, n: nat)
    requires off <= MAX_SIZE
    ensures Accepted(off, n) <= n && off + Accepted(off, n) <= MAX_SIZE
    ensures off + n > MAX_SIZE ==> Accepted(off, n) % MAX_CHUNK == 0 && off + Accepted(off, n) + MAX_CHUNK > MAX_SIZE
    ensures off + n <= MAX_SIZE ==> Accepted(off, n) == n
  {
    WholeDown(MAX_SIZE - off);
  }

  function ChunkSize(n: nat, i: nat): nat
    requires i < n
  {
    if n - i > MAX_CHUNK then MAX_CHUNK else n - i
  }

  lemma Multiples(a: nat, b: nat)
    requires a % MAX_CHUNK == 0 && b % MAX_CHUNK == 0 && a < b
    ensures a + MAX_CHUNK <= b
  {
  }

  lemma NextWhole(i: nat)
    requires i % MAX_CHUNK == 0
    ensures (i + MAX_CHUNK) % MAX_CHUNK == 0
  {
  }

  /** A chunk after whole ones is accepted if it fits; otherwise it is the first that
      is not. */
  lemma NextAccepted(off: nat, n: nat, i: nat)
    requires off <= MAX_SIZE && i < n && i % MAX_CHUNK == 0 && i <= Accepted(off, n)
    ensures i + ChunkSize(n, i) == n || (i + ChunkSize(n, i)) % MAX_CHUNK == 0
    ensures if off + i + ChunkSize(n, i) <= MAX_SIZE then i + ChunkSize(n, i) <= Accepted(off, n)
      else i == Accepted(off, n)
  {
    hide Accepted;
    AcceptedIs(off, n);
    NextWhole(i);
    var a := Accepted(off, n);
    if a < n && i < a { Multiples(i, a); }
  }

  lemma NewBlocksAdd(size: nat, e1: nat, e2: nat)
    requires e1 <= e2
    ensures NewBlocks(size, e2) == NewBlocks(size, e1) + NewBlocks(Max(size, e1), e2)
  {
    BlocksMono(e1, e2);
    BlocksMono(e1, Max(size, e1));
    BlocksMono(size, Max(size, e1));
  }

  // ---- splicing ----------------------------------------------------------

  lemma SplicedTwice(c: seq<byte>, off: nat, a: seq<byte>, b: seq<byte>)
    requires off <= |c|
    ensures off + |a| <= |Spliced(c, off, a)|
    ensures Spliced(Spliced(c, off, a), off + |a|, b) == Spliced(c, off, a + b)
  {
  }

  lemma SplicedSize(c: seq<byte>, off: nat, a: seq<byte>)
    requires off <= |c|
    ensures |Spliced(c, off, a)| == Max(|c|, off + |a|)
  {
  }

  lemma OthersSelf(fs: FileSystem, i: nat)
    requires fs.Valid()
    ensures OthersSame(fs.blocks[..], fs.nodes, fs.blocks[..], fs.nodes, i)
  {
    hide WholeAt, Content;
  }

  lemma SplicedNone(c: seq<byte>, off: nat)
    requires off <= |c|
    ensures Spliced(c, off, []) == c
  {
  }

  // ---- crashes -----------------------------------------------------------

  /** What a write begins with: the file, its position, the image and the history. */
  datatype Was = Was(c: seq<byte>, off: nat, b: Blocks, n: map<nat, Node>, free: nat, image: seq<Sector>,
    history: seq<Writes>)

  /** The bytes in the file once `k` transactions are committed, of `i` bytes in all. */
  function Sent(k: nat, i: nat): (r: nat)
    ensures r <= i
  {
    if k * MAX_CHUNK < i then k * MAX_CHUNK else i
  }

  /** The disk of the first `k` transactions has the file with that many bytes of the
      source, and every other file as it was. */
  ghost predicate ChunksAt(g: L.Geometry, ws: seq<Writes>, k: nat, inum: nat, was: Was, src: seq<byte>, i: nat)
    requires k <= |ws| && was.off <= |was.c| && i <= |src|
  {
    Durable(g, After(was.image, ws, k), inum, Spliced(was.c, was.off, src[..Sent(k, i)]), was.b, was.n)
  }

  ghost predicate AllChunks(g: L.Geometry, ws: seq<Writes>, inum: nat, was: Was, src: seq<byte>, i: nat)
    requires was.off <= |was.c| && i <= |src|
  {
    forall k: nat | k <= |ws| :: ChunksAt(g, ws, k, inum, was, src, i)
  }

  /** In every run of these transactions, with crashes and recoveries anywhere, recovery
      gives the file exactly the chunks committed so far. */
  ghost predicate WholeChunks(g: L.Geometry, ws: seq<Writes>, inum: nat, was: Was, src: seq<byte>, i: nat)
    requires was.off <= |was.c| && i <= |src|
  {
    forall run: seq<Point>, m: nat | Carries(g, ws, was.image, run) && m < |run| ::
      && L.Recoverable(g, run[m].s.disk)
      && Holds(L.Recovered(g, run[m].s.disk), inum, Spliced(was.c, was.off, src[..Sent(run[m].p.k, i)]), was.b, was.n)
  }

  lemma ChunksAreWhole(g: L.Geometry, ws: seq<Writes>, inum: nat, was: Was, src: seq<byte>, i: nat)
    requires was.off <= |was.c| && i <= |src| && AllChunks(g, ws, inum, was, src, i)
    ensures WholeChunks(g, ws, inum, was, src, i)
  {
    hide Carries, Durable, Spliced, Holds, Sent, After, L.Recoverable, L.Recovered;
    forall run: seq<Point>, m: nat | Carries(g, ws, was.image, run) && m < |run|
      ensures L.Recoverable(g, run[m].s.disk)
      ensures Holds(L.Recovered(g, run[m].s.disk), inum, Spliced(was.c, was.off, src[..Sent(run[m].p.k, i)]), was.b,
        was.n)
    {
      RunStands(g, ws, was.image, run, m);
      assert ChunksAt(g, ws, run[m].p.k, inum, was, src, i);
      CrashLeaves(g, ws, was.image, run, m, inum, Spliced(was.c, was.off, src[..Sent(run[m].p.k, i)]), was.b, was.n);
    }
  }

  lemma {:induction false} AfterMore(d0: seq<Sector>, ws: seq<Writes>, w: Writes, k: nat)
    requires k <= |ws|
    ensures After(d0, ws + [w], k) == After(d0, ws, k)
    ensures After(d0, ws + [w], |ws| + 1) == Applied(After(d0, ws + [w], |ws|), w)
    decreases k
  {
    if k > 0 { AfterMore(d0, ws, w, k - 1); }
  }

  /** One more transaction, with none or the next of the chunks in it. */
  lemma MoreChunks(g: L.Geometry, ws: seq<Writes>, w: Writes, inum: nat, was: Was, src: seq<byte>, i: nat, i': nat)
    requires was.off <= |was.c| && i <= i' <= |src| && AllChunks(g, ws, inum, was, src, i)
    requires i == |ws| * MAX_CHUNK && i' <= i + MAX_CHUNK
    requires Durable(g, Applied(After(was.image, ws, |ws|), w), inum, Spliced(was.c, was.off, src[..i']), was.b, was.n)
    ensures AllChunks(g, ws + [w], inum, was, src, i')
  {
    hide Durable, Spliced, After, Applied;
    forall k: nat | k <= |ws| + 1 ensures ChunksAt(g, ws + [w], k, inum, was, src, i') {
      if k <= |ws| {
        AfterMore(was.image, ws, w, k);
        assert ChunksAt(g, ws, k, inum, was, src, i);
        SentBefore(k, |ws|, i, i');
      } else {
        AfterMore(was.image, ws, w, |ws|);
        SentLast(|ws|, i, i');
      }
    }
  }

  lemma SentBefore(k: nat, n: nat, i: nat, i': nat)
    requires k <= n && i == n * MAX_CHUNK && i <= i'
    ensures Sent(k, i) == Sent(k, i')
  {
    assert k * MAX_CHUNK <= n * MAX_CHUNK;
  }

  lemma SentLast(n: nat, i: nat, i': nat)
    requires i == n * MAX_CHUNK && i' <= i + MAX_CHUNK
    ensures Sent(n + 1, i') == i'
  {
    assert (n + 1) * MAX_CHUNK == n * MAX_CHUNK + MAX_CHUNK;
  }

  // ---- the loop ----------------------------------------------------------

  /** One transaction: one chunk at the file's position.  It logs at most seven sectors
      and keeps at most eight buffers busy or dirty, whatever comes of it. */
  method WriteChunk(fs: FileSystem, f: OpenFile, chunk: seq<byte>) returns (r: Io)
    requires fs.Valid() && fs.Current(f.ip) && fs.size <= BPB && 7 < fs.logSize - 1 && f.ip.info.kind != T_DEV
    requires 0 < |chunk| <= MAX_CHUNK && f.ip.size <= MAX_SIZE
    modifies f, f.ip, f.ip.addrs, fs, fs.blocks, fs.bitmap, fs.dinodes
    ensures |fs.logged| <= 7 && fs.peak <= 8
    ensures r == Ret(-1) <==> old(f.off) > old(f.ip.size) || old(f.off) + |chunk| > MAX_SIZE
    ensures r.InLog? <==> r != Ret(-1) && NewBlocks(old(f.ip.size), old(f.off) + |chunk|) > |old(fs.Free())|
    ensures r.InLog? ==> fs.LogStart() in fs.logged && fs.history == old(fs.history)
    ensures r != Ret(-1) && !r.InLog? ==> r == Ret(|chunk|) && f.off == old(f.off) + |chunk|
    ensures r == Ret(-1) ==> f.off == old(f.off) && f.ip.size == old(f.ip.size)
    ensures r == Ret(|chunk|) ==> f.ip.size == Max(old(f.ip.size), old(f.off) + |chunk|)
    ensures r == Ret(|chunk|) ==> f.off <= f.ip.size <= MAX_SIZE
    ensures !r.InLog? ==> fs.Valid() && fs.Current(f.ip) && f.ip.info == old(f.ip.info)
    ensures !r.InLog? ==> Shaped(fs.nodes[f.ip.inum]) && fs.nodes[f.ip.inum].size <= MAX_SIZE
    ensures !r.InLog? ==> OthersSame(old(fs.blocks[..]), old(fs.nodes), fs.blocks[..], fs.nodes, f.ip.inum)
    ensures r == Ret(-1) ==> fs.File(f.ip.inum) == old(fs.File(f.ip.inum)) && |fs.Free()| == |old(fs.Free())|
    ensures r == Ret(|chunk|) ==> fs.File(f.ip.inum) == Spliced(old(fs.File(f.ip.inum)), old(f.off), chunk)
    ensures r == Ret(|chunk|) ==> |fs.Free()| == |old(fs.Free())| - NewBlocks(old(f.ip.size), old(f.off) + |chunk|)
    ensures !r.InLog? ==> fs.history == old(fs.history) + [fs.writes]
    ensures !r.InLog? ==> fs.Image() == Applied(old(fs.Image()), fs.writes)
    ensures r == Ret(-1) ==> fs.Image() == old(fs.Image())
  {
    hide FileSystem.Valid, FileSystem.Books, FileSystem.Free, FileSystem.Bitmaps, Content, Spliced, WholeAt, OthersSame,
      NewBlocks, ImageOf, Takes, Applied, Refused;
    ChunkBudget(fs, f.off, |chunk|);
    fs.ValidShaped(f.ip.inum);
    fs.BeginTrans(7);
    OthersSelf(fs, f.ip.inum);
    RefusedIs(f.ip.size, f.off, |chunk|);
    r := fs.Writei(f.ip, chunk, f.off);
    Bounded(fs);
    if r.InLog? {
      return;
    }
    fs.ValidShaped(f.ip.inum);
    Amounts(fs);
    fs.CommitTrans();
    if r != Ret(-1) {
      SplicedSize(old(fs.File(f.ip.inum)), f.off, chunk);
      f.off := f.off + r.r;
    }
  }

  lemma RefusedIs(size: nat, off: Word, n: Word)
    ensures Refused(size, off, n) <==> off > size || off + n > MAX_SIZE
  {
  }

  lemma Bounded(fs: FileSystem)
    requires fs.Books()
    ensures |fs.logged| <= fs.limit && fs.peak <= fs.limit + 1
  {
    CardSubset(fs.logged, fs.plan);
  }

  /** What was logged amounts to the disk. */
  lemma Amounts(fs: FileSystem)
    requires fs.Valid()
    ensures fs.Image() == Applied(fs.image0, fs.writes)
  {
    hide ImageOf, Applied, WholeAt, Owned;
  }

  /** The transactions since the write began. */
  ghost function Since(fs: FileSystem, was: Was): seq<Writes>
    reads fs
  {
    if was.history <= fs.history then fs.history[|was.history|..] else []
  }

  /** Where the loop of `filewrite` stands after `i` bytes, given what it began with. */
  ghost predicate Written(fs: FileSystem, f: OpenFile, i: nat, was: Was, src: seq<byte>)
    reads fs, fs.blocks, fs.bitmap, fs.dinodes, f, f.ip, f.ip.addrs
  {
    && fs.Valid() && fs.Current(f.ip) && f.ip.info.kind != T_DEV
    && was.off <= |was.c| <= MAX_SIZE && i <= |src| && was.off + i <= MAX_SIZE
    && f.off == was.off + i <= f.ip.size == Max(|was.c|, was.off + i) <= MAX_SIZE
    && Shaped(fs.nodes[f.ip.inum]) && fs.nodes[f.ip.inum].size <= MAX_SIZE
    && fs.File(f.ip.inum) == Spliced(was.c, was.off, src[..i])
    && OthersSame(was.b, was.n, fs.blocks[..], fs.nodes, f.ip.inum)
    && |fs.Free()| == was.free - NewBlocks(|was.c|, was.off + i)
    && Traced(fs, f.ip.inum, i, was, src)
  }

  /** The transactions so far lead to the disk, one chunk after the other. */
  ghost predicate Traced(fs: FileSystem, inum: nat, i: nat, was: Was, src: seq<byte>)
    requires fs.Layout() && was.off <= |was.c| && i <= |src|
    reads fs, fs.blocks, fs.bitmap, fs.dinodes
  {
    && was.history <= fs.history && After(was.image, Since(fs, was), |Since(fs, was)|) == fs.Image()
    && AllChunks(Geo(fs), Since(fs, was), inum, was, src, i)
  }

  lemma WriteStart(fs: FileSystem, f: OpenFile, was: Was, src: seq<byte>)
    requires fs.Valid() && fs.Current(f.ip) && f.ip.info.kind != T_DEV && f.off <= f.ip.size <= MAX_SIZE
    requires Shaped(fs.nodes[f.ip.inum])
    requires was == Was(fs.File(f.ip.inum), f.off, fs.blocks[..], fs.nodes, |fs.Free()|, fs.Image(), fs.history)
    ensures Written(fs, f, 0, was, src) && Since(fs, was) == []
  {
    hide FileSystem.Base, FileSystem.Rested, FileSystem.Free, Content, ImageOf, Durable, OthersSame, Spliced, NewBlocks;
    OthersSelf(fs, f.ip.inum);
    fs.ValidShaped(f.ip.inum);
    SplicedNone(was.c, f.off);
    assert src[..0] == [];
    CountStart(f.ip.size, f.off);
    SameHomeSelf(Geo(fs), fs.Image());
    DurableNow(fs, fs.Image(), f.ip.inum, was.b, was.n);
    var ws := Since(fs, was);
    assert ws == [];
    assert ChunksAt(Geo(fs), ws, 0, f.ip.inum, was, src, 0);
  }

  lemma SameHomeSelf(g: L.Geometry, d: seq<Sector>)
    ensures L.SameHome(g, d, d)
  {
  }

  /** The history and the image after one more transaction. */
  lemma NextHistory(fs: FileSystem, ip: Inode, was: Was, src: seq<byte>, ws: seq<Writes>, i: nat, i': nat)
    requires fs.Valid() && fs.Current(ip) && was.off <= |was.c| && i <= i' <= |src|
    requires Shaped(fs.nodes[ip.inum]) && fs.nodes[ip.inum].size <= MAX_SIZE
    requires fs.history == was.history + ws + [fs.writes]
    requires fs.Image() == Applied(After(was.image, ws, |ws|), fs.writes)
    requires AllChunks(Geo(fs), ws, ip.inum, was, src, i) && i == |ws| * MAX_CHUNK && i' <= i + MAX_CHUNK
    requires fs.File(ip.inum) == Spliced(was.c, was.off, src[..i'])
    requires OthersSame(was.b, was.n, fs.blocks[..], fs.nodes, ip.inum)
    ensures Since(fs, was) == ws + [fs.writes] && Traced(fs, ip.inum, i', was, src)
  {
    hide FileSystem.Base, FileSystem.Rested, Content, ImageOf, OthersSame, Spliced, Applied, After, AllChunks, Since;
    fs.ValidShaped(ip.inum);
    SinceMore(fs, was, ws);
    AfterMore(was.image, ws, fs.writes, |ws|);
    NewDurable(fs, ip, was, src, i');
    MoreChunks(Geo(fs), ws, fs.writes, ip.inum, was, src, i, i');
  }

  lemma SinceMore(fs: FileSystem, was: Was, ws: seq<Writes>)
    requires fs.history == was.history + ws + [fs.writes]
    ensures was.history <= fs.history && Since(fs, was) == ws + [fs.writes]
  {
    assert was.history + ws + [fs.writes] == was.history + (ws + [fs.writes]);
  }

  /** The disk as it is holds the file and the others. */
  lemma NewDurable(fs: FileSystem, ip: Inode, was: Was, src: seq<byte>, i: nat)
    requires fs.Valid() && fs.Current(ip) && was.off <= |was.c| && i <= |src|
    requires Shaped(fs.nodes[ip.inum]) && fs.nodes[ip.inum].size <= MAX_SIZE
    requires fs.File(ip.inum) == Spliced(was.c, was.off, src[..i])
    requires OthersSame(was.b, was.n, fs.blocks[..], fs.nodes, ip.inum)
    ensures Durable(Geo(fs), fs.Image(), ip.inum, Spliced(was.c, was.off, src[..i]), was.b, was.n)
  {
    hide FileSystem.Base, FileSystem.Rested, Content, ImageOf, Durable, OthersSame, Spliced;
    fs.ValidShaped(ip.inum);
    SameHomeSelf(Geo(fs), fs.Image());
    DurableNow(fs, fs.Image(), ip.inum, was.b, was.n);
  }

  lemma WrittenIs(fs: FileSystem, f: OpenFile, i: nat, was: Was, src: seq<byte>)
    requires Written(fs, f, i, was, src)
    ensures fs.Valid() && fs.Current(f.ip) && f.ip.info.kind != T_DEV
    ensures was.off <= |was.c| <= MAX_SIZE && i <= |src|
    ensures f.off == was.off + i <= f.ip.size == Max(|was.c|, was.off + i) <= MAX_SIZE
    ensures fs.File(f.ip.inum) == Spliced(was.c, was.off, src[..i])
    ensures OthersSame(was.b, was.n, fs.blocks[..], fs.nodes, f.ip.inum)
    ensures |fs.Free()| == was.free - NewBlocks(|was.c|, was.off + i)
    ensures fs.history == was.history + Since(fs, was)
    ensures After(was.image, Since(fs, was), |Since(fs, was)|) == fs.Image()
    ensures AllChunks(Geo(fs), Since(fs, was), f.ip.inum, was, src, i)
  {
    hide FileSystem.Valid, FileSystem.Free, Content, ImageOf, OthersSame, Spliced, NewBlocks, AllChunks, After;
  }

  /** The next round: the chunk after `i` bytes. */
  method NextChunk(fs: FileSystem, f: OpenFile, src: seq<byte>, i: nat, ghost was: Was) returns (r: Io)
    requires Written(fs, f, i, was, src) && i < |src| && fs.size <= BPB && 7 < fs.logSize - 1
    requires i == |Since(fs, was)| * MAX_CHUNK
    modifies f, f.ip, f.ip.addrs, fs, fs.blocks, fs.bitmap, fs.dinodes
    ensures |fs.logged| <= 7 && fs.peak <= 8
    ensures r == Ret(-1) <==> was.off + i + ChunkSize(|src|, i) > MAX_SIZE
    ensures r.InLog? <==> r != Ret(-1) && NewBlocks(|was.c|, was.off + i + ChunkSize(|src|, i)) > was.free
    ensures r.InLog? ==> fs.LogStart() in fs.logged && fs.history == old(fs.history)
    ensures r != Ret(-1) && !r.InLog? ==> r == Ret(ChunkSize(|src|, i))
    ensures r == Ret(-1) ==> Written(fs, f, i, was, src)
    ensures r == Ret(ChunkSize(|src|, i)) ==>
      && Written(fs, f, i + ChunkSize(|src|, i), was, src) && |Since(fs, was)| == |old(Since(fs, was))| + 1
  {
    hide FileSystem.Valid, FileSystem.Free, Content, ImageOf, OthersSame, Spliced, NewBlocks, AllChunks, After, Applied,
      Traced, Since;
    WrittenIs(fs, f, i, was, src);
    var n1 := if |src| - i > MAX_CHUNK then MAX_CHUNK else |src| - i;
    var chunk := src[i..i + n1];
    ghost var b1, n', ws := fs.blocks[..], fs.nodes, Since(fs, was);
    assert src[..i] + chunk == src[..i + n1];
    SplicedTwice(was.c, was.off, src[..i], chunk);
    NewBlocksAdd(|was.c|, was.off + i, was.off + i + n1);
    r := WriteChunk(fs, f, chunk);
    if r.InLog? {
      return;
    }
    OthersTrans(was.b, was.n, b1, n', fs.blocks[..], fs.nodes, f.ip.inum);
    NextHistory(fs, f.ip, was, src, ws, i, if r == Ret(-1) then i else i + n1);
  }

  /** `filewrite` on a file: it writes the source up to the first chunk that would make
      the file too large.  That works exactly when the blocks for it are free.  No
      transaction logs more than seven sectors or keeps more than eight buffers busy or
      dirty.  Carrying its transactions out, with crashes and recoveries anywhere, leaves
      exactly the chunks committed so far. */
  method Write(fs: FileSystem, f: OpenFile, src: seq<byte>, ghost was: Was) returns (r: Io, done: nat)
    requires fs.Valid() && fs.Current(f.ip) && fs.size <= BPB && 7 < fs.logSize - 1 && f.ip.info.kind != T_DEV
    requires Shaped(fs.nodes[f.ip.inum]) && f.ip.size <= MAX_SIZE && |src| < 0x8000_0000
    requires was == Was(fs.File(f.ip.inum), f.off, fs.blocks[..], fs.nodes, |fs.Free()|, fs.Image(), fs.history)
    modifies f, f.ip, f.ip.addrs, fs, fs.blocks, fs.bitmap, fs.dinodes
    ensures src != [] ==> |fs.logged| <= 7 && fs.peak <= 8
    ensures r.InLog? <==> was.off <= |was.c| && NewBlocks(|was.c|, was.off + Accepted(was.off, |src|)) > was.free
    ensures r.InLog? ==> fs.LogStart() in fs.logged
    ensures !r.InLog? ==> r == Ret(if done == |src| then |src| else -1)
    ensures !r.InLog? ==> done == if was.off <= |was.c| then Accepted(was.off, |src|) else 0
    ensures !r.InLog? && was.off <= |was.c| ==> Written(fs, f, done, was, src)
    ensures !r.InLog? && was.off > |was.c| ==> Untouched(fs, f, was)
    ensures was.off <= |was.c| ==>
      && was.history <= fs.history && done <= |src| && WholeChunks(Geo(fs), Since(fs, was), f.ip.inum, was, src, done)
  {
    hide FileSystem.Valid, FileSystem.Free, Content, OthersSame, NewBlocks, WholeChunks, Accepted, Written, Applied;
    done := 0;
    OthersSelf(fs, f.ip.inum);
    fs.ValidShaped(f.ip.inum);
    if f.off > f.ip.size {
      if src == [] {
        return Ret(0), 0;
      }
      r := WriteChunk(fs, f, src[..ChunkSize(|src|, 0)]);
      return;
    }
    WriteStart(fs, f, was, src);
    WrittenWhole(fs, f, 0, was, src);
    AcceptedIs(was.off, |src|);
    while done < |src|
      invariant done <= Accepted(was.off, |src|) <= |src| && (done < |src| ==> done == |Since(fs, was)| * MAX_CHUNK)
      invariant Written(fs, f, done, was, src) && NewBlocks(|was.c|, was.off + done) <= was.free
      invariant was.history <= fs.history && WholeChunks(Geo(fs), Since(fs, was), f.ip.inum, was, src, done)
      invariant done > 0 ==> |fs.logged| <= 7 && fs.peak <= 8
    {
      Whole(|Since(fs, was)|);
      NextAccepted(was.off, |src|, done);
      r := NextChunk(fs, f, src, done, was);
      if r.InLog? {
        NewBlocksMono(|was.c|, 0, was.off + done + ChunkSize(|src|, done), was.off + Accepted(was.off, |src|));
        return;
      }
      if r == Ret(-1) {
        WrittenWhole(fs, f, done, was, src);
        return;
      }
      done := done + r.r;
      WrittenWhole(fs, f, done, was, src);
    }
    r := Ret(|src|);
  }

  lemma Whole(n: nat)
    ensures n * MAX_CHUNK % MAX_CHUNK == 0 && (n + 1) * MAX_CHUNK == n * MAX_CHUNK + MAX_CHUNK
  {
  }

  lemma WrittenWhole(fs: FileSystem, f: OpenFile, i: nat, was: Was, src: seq<byte>)
    requires Written(fs, f, i, was, src)
    ensures fs.Layout() && was.off <= |was.c| && i <= |src| && NewBlocks(|was.c|, was.off + i) <= was.free
    ensures was.history <= fs.history && WholeChunks(Geo(fs), Since(fs, was), f.ip.inum, was, src, i)
  {
    hide AllChunks, Content, OthersSame, NewBlocks, WholeChunks;
    ChunksAreWhole(Geo(fs), Since(fs, was), f.ip.inum, was, src, i);
  }

  ghost predicate Untouched(fs: FileSystem, f: OpenFile, was: Was)
    reads fs, fs.blocks, fs.bitmap, fs.dinodes, f, f.ip, f.ip.addrs
  {
    && fs.Valid() && fs.Current(f.ip) && f.off == was.off && fs.Image() == was.image
    && Shaped(fs.nodes[f.ip.inum]) && fs.nodes[f.ip.inum].size <= MAX_SIZE && fs.File(f.ip.inum) == was.c
    && OthersSame(was.b, was.n, fs.blocks[..], fs.nodes, f.ip.inum)
  }
}
