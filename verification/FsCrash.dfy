/** What a file system's disk holds after a crash and a recovery. */
module FsCrash {
  import opened Params
  import opened Collections
  import opened Sector
  import opened FsImage
  import opened FsWrite
  import opened FsBitmap
  import opened FsDisk
  import opened Fs
  import opened LogRuns
  import L = LogMachine
  import R = LogRegion

  /** The log of a file system's disk. */
  ghost function Geo(fs: FileSystem): L.Geometry
    requires fs.Layout()
  {
    L.Geometry(fs.LogStart(), fs.logSize)
  }

  // ---- files on a disk ---------------------------------------------------

  predicate Agree(b: Blocks, d: Blocks, a: nat) { a < |b| && a < |d| && d[a] == b[a] }

  /** Where two disks agree they hold the same file. */
  lemma SameContent(b: Blocks, d: Blocks, nd: Node)
    requires WholeAt(b, nd)
    requires forall bn: nat | bn < MAXFILE && Addr(b, nd, bn) != 0 :: Agree(b, d, Addr(b, nd, bn))
    requires nd.addrs[NDIRECT] != 0 ==> Agree(b, d, nd.addrs[NDIRECT])
    ensures Content(d, nd) == Content(b, nd)
  {
    hide GetWord, Content;
    forall x: nat | x < nd.size ensures ByteAt(d, nd, x) == ByteAt(b, nd, x) {
      var bn := x / BSIZE;
      assert Addr(b, nd, bn) != 0;
      assert Agree(b, d, Addr(b, nd, bn));
    }
  }

  /** A block of a file lies behind the bitmap and before the log. */
  lemma DataAgrees(fs: FileSystem, d: seq<Sector>, i: nat, k: nat)
    requires fs.Base() && i in fs.nodes && k <= LAST_SLOT && L.SameHome(Geo(fs), d, fs.Image())
    ensures Shaped(fs.nodes[i])
    ensures At(fs.blocks[..], fs.nodes[i], k) != 0 ==> Agree(fs.blocks[..], d, At(fs.blocks[..], fs.nodes[i], k))
  {
    hide At, UsedSet, NodesSector, FileSystem.Books, FileSystem.Ahead;
    var b := fs.blocks[..];
    var a := SlotAddr(b, fs.nodes, Slot(i, k));
    if a != 0 {
      assert InUse(fs.Data(), b, fs.Used(), a);
      assert a < fs.LogStart();
      DataSector(fs, a);
      assert L.IsHome(Geo(fs), d, a);
    }
  }

  lemma DataSector(fs: FileSystem, a: nat)
    requires fs.Layout() && fs.Data() <= a < fs.size
    ensures fs.Image()[a] == fs.blocks[a]
  {
    hide NodesSector;
    assert (a - 2) * IPB >= fs.ninodes;
  }

  /** A disk that agrees with the file system outside the log holds its files. */
  lemma HoldsFile(fs: FileSystem, d: seq<Sector>, j: nat)
    requires fs.Valid() && j in fs.nodes && L.SameHome(Geo(fs), d, fs.Image())
    ensures Shaped(fs.nodes[j]) && fs.nodes[j].size <= MAXFILE * BSIZE && FileOn(d, j, fs.File(j))
  {
    hide ImageOf, WholeAt, Addr, At, Content, UsedSet, NodeIn, Owned, FileSystem.Books, FileSystem.Ahead;
    fs.ValidWhole(j);
    var b, nd := fs.blocks[..], fs.nodes[j];
    assert WholeAt(b, nd);
    fs.MetaHome(j);
    NodeOnImage(b, fs.bitmap[..], fs.dinodes[..], j);
    assert L.IsHome(Geo(fs), d, InodeSector(j));
    forall bn: nat | bn < MAXFILE && Addr(b, nd, bn) != 0 ensures Agree(b, d, Addr(b, nd, bn)) {
      AddrSlot(b, nd, bn);
      DataAgrees(fs, d, j, SlotOf(bn));
    }
    if nd.addrs[NDIRECT] != 0 {
      fs.DirectSlot(b, nd, NDIRECT);
      DataAgrees(fs, d, j, NDIRECT);
    }
    SameContent(b, d, nd);
  }

  lemma AddrSlot(b: Blocks, nd: Node, bn: nat)
    requires Shaped(nd) && bn < MAXFILE
    ensures Addr(b, nd, bn) == At(b, nd, SlotOf(bn))
  {
  }

  // ---- crashes -----------------------------------------------------------

  /** The disk holds file `i` with contents `c`, and every other file as in the image
      of blocks `b0` and inodes `n0`. */
  ghost predicate Holds(d: seq<Sector>, i: nat, c: seq<byte>, b0: Blocks, n0: map<nat, Node>) {
    && FileOn(d, i, c)
    && forall j | j in n0 && j != i :: WholeAt(b0, n0[j]) && FileOn(d, j, Content(b0, n0[j]))
  }

  /** So does every disk that agrees with this one outside the log. */
  ghost predicate Durable(g: L.Geometry, d0: seq<Sector>, i: nat, c: seq<byte>, b0: Blocks, n0: map<nat, Node>) {
    forall d: seq<Sector> | L.SameHome(g, d, d0) :: Holds(d, i, c, b0, n0)
  }

  lemma DurableNow(fs: FileSystem, d0: seq<Sector>, i: nat, b0: Blocks, n0: map<nat, Node>)
    requires fs.Valid() && i in fs.nodes && L.SameHome(Geo(fs), d0, fs.Image())
    requires OthersSame(b0, n0, fs.blocks[..], fs.nodes, i)
    ensures Shaped(fs.nodes[i]) && fs.nodes[i].size <= MAXFILE * BSIZE
    ensures Durable(Geo(fs), d0, i, fs.File(i), b0, n0)
  {
    hide FileSystem.Valid, FileOn, Content, ImageOf, Addr;
    fs.ValidWhole(i);
    forall d: seq<Sector> | L.SameHome(Geo(fs), d, d0) ensures Holds(d, i, fs.File(i), b0, n0) {
      SameHomeTrans(Geo(fs), d, d0, fs.Image());
      HoldsFile(fs, d, i);
      forall j | j in n0 && j != i ensures WholeAt(b0, n0[j]) && FileOn(d, j, Content(b0, n0[j])) {
        HoldsFile(fs, d, j);
      }
    }
  }

  /** A crash in any state of any run of the program leaves, after recovery, the files of
      the disk with the transactions committed so far. */
  lemma CrashLeaves(g: L.Geometry, ws: seq<Writes>, d0: seq<Sector>, run: seq<Point>, k: nat, i: nat, c: seq<byte>,
                    b0: Blocks, n0: map<nat, Node>)
    requires Carries(g, ws, d0, run) && k < |run| && run[k].p.k <= |ws|
    requires Durable(g, After(d0, ws, run[k].p.k), i, c, b0, n0)
    ensures L.Recoverable(g, run[k].s.disk) && Holds(L.Recovered(g, run[k].s.disk), i, c, b0, n0)
  {
    hide Carries, Holds, After, L.Recovered, L.Recoverable;
    RecoversWhole(g, ws, d0, run, k);
  }

  // ---- a transaction -----------------------------------------------------

  /** Whatever a transaction of the file system logged, the log machine can carry out. */
  lemma Carried(fs: FileSystem, ws: seq<Writes>, d0: seq<Sector>, run: seq<Point>) returns (more: seq<Point>)
    requires fs.Base() && run != [] && Carries(Geo(fs), ws, d0, run) && Rests(Last(run)) && |d0| == fs.size
    requires Last(run).p.k < |ws| && ws[Last(run).p.k] == fs.writes
    ensures more != [] && Carries(Geo(fs), ws, d0, more) && run <= more
    ensures Rests(Last(more)) && Last(more).p.k == Last(run).p.k + 1
  {
    hide Carries, Applied, ImageOf, FileSystem.Intact;
    RunStands(Geo(fs), ws, d0, run, |run| - 1);
    assert |Last(run).s.disk| == fs.size;
    WritesHome(fs, Last(run).s.disk);
    CardSubset(fs.logged, fs.plan);
    more := Transaction(Geo(fs), ws, d0, run, fs.logged);
  }

  lemma WritesHome(fs: FileSystem, d: seq<Sector>)
    requires fs.Base() && |d| == fs.size
    ensures forall k | 0 <= k < |fs.writes| :: fs.writes[k].0 in fs.logged && L.IsHome(Geo(fs), d, fs.writes[k].0)
  {
    hide ImageOf, Applied, Owned, UsedSet;
  }

  // ---- a full disk -------------------------------------------------------

  /** The transaction `Fs.FileSystem.Obtain` leaves when no block before the log is free
      logs the header's bitmap sector and the header.  Whatever data `b` then goes into
      that block, a crash after the commit loses nothing if and only if it begins with
      four zero bytes. */
  lemma FullDisk(fs: FileSystem, d: seq<Sector>, bitmap: Sector, b: Sector)
    requires fs.Layout() && R.Committed(Geo(fs), d, [fs.Bblock(fs.LogStart()), fs.LogStart()], [bitmap, b])
    ensures R.Survives(Geo(fs), d, [fs.Bblock(fs.LogStart()), fs.LogStart()], [bitmap, b]) <==> GetWord(b, 0) == 0
  {
    hide R.Survives, GetWord, L.HeadSectors, R.Committed;
    var g, xs, bs := Geo(fs), [fs.Bblock(fs.LogStart()), fs.LogStart()], [bitmap, b];
    assert xs[0] < fs.LogStart() by { BitmapBefore(fs); }
    R.CommittedSurvives(g, d, xs, bs);
    R.CountIs(b);
    assert xs[1] == g.start && bs[1] == b;
  }

  lemma BitmapBefore(fs: FileSystem)
    requires fs.Layout()
    ensures fs.Bblock(fs.LogStart()) < fs.LogStart()
  {
  }
}
