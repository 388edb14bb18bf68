/** The buffers and the log behind the file system.

    `FileSystem` keeps books of the sectors it holds and logs.  Here they are held
    against a cache and a log: as long as the busy buffers are those of held sectors and
    the dirty ones those of logged sectors, every read finds a buffer, every log_write
    finds room, and the two go on in step. */
module FsCache {
  import opened Params
  import opened Collections
  import opened Sector
  import opened Disk
  import opened BufferCache
  import opened LogMachine
  import opened Fs
  import L = Log

  /** Busy buffers are for sectors held, dirty ones for sectors logged. */
  ghost predicate Keeps(bufs: seq<Buf>, held: set<nat>, logged: set<nat>) {
    && (forall i | 0 <= i < |bufs| && bufs[i].busy :: bufs[i].dev == DISK_DEV && bufs[i].sector in held)
    && (forall i | 0 <= i < |bufs| && bufs[i].dirty :: bufs[i].dev == DISK_DEV && bufs[i].sector in logged)
  }

  ghost predicate Matched(log: L.Log, fs: FileSystem)
    reads log, log.sector, log.cache, log.cache.bufs, log.cache.prev, log.cache.next, log.cache.disk,
      log.cache.disk.sectors, fs
  {
    && log.Valid() && log.run != [] && log.InTrans() && log.start == fs.LogStart() && log.size == fs.logSize
    && Keeps(log.cache.bufs[..], fs.held, fs.logged)
    && forall x :: x in log.Homes() <==> x in fs.logged
  }

  /** `bread` neither sleeps nor panics wherever the file system calls it. */
  lemma ReadGoesOn(cache: Cache, fs: FileSystem, x: nat)
    requires cache.Valid() && Keeps(cache.bufs[..], fs.held, fs.logged)
    requires fs.Books() && (x in fs.plan || fs.held <= fs.plan) && x !in fs.held
    ensures cache.CanRead(x)
  {
    hide FileSystem.Books;
    cache.Parts();
    fs.Busy(x);
    BuffersSuffice(cache.bufs[..], fs.held + fs.logged, x);
    Found(cache, x);
  }

  lemma Found(cache: Cache, x: nat)
    requires forall i | 0 <= i < cache.bufs.Length && Matches(cache.bufs[i], DISK_DEV, x) :: !cache.bufs[i].busy
    requires cache.bufs.Length == NBUF
    requires var s := cache.bufs[..]; exists i | 0 <= i < NBUF :: Matches(s[i], DISK_DEV, x) || Idle(s[i])
    ensures cache.CanRead(x)
  {
    var s := cache.bufs[..];
    var i :| 0 <= i < NBUF && (Matches(s[i], DISK_DEV, x) || Idle(s[i]));
    assert Matches(cache.bufs[i], DISK_DEV, x) || Idle(cache.bufs[i]);
  }

  /** `log_write` has a place left, and a buffer for its slot, wherever the file system
      calls it. */
  lemma WriteGoesOn(log: L.Log, fs: FileSystem, x: nat)
    requires Matched(log, fs) && fs.Books() && fs.held <= fs.plan && forall y | y in fs.plan :: y < fs.LogStart()
    ensures log.n < LOGSIZE && log.n < log.size - 1 && log.cache.CanRead(log.start + 1 + Slot(log.Homes(), x))
  {
    hide FileSystem.Books, Inv, Slot, L.Pends;
    log.cache.Parts();
    log.NowInv();
    fs.Room();
    CountLogged(log, fs);
    var slot := log.start + 1 + Slot(log.Homes(), x);
    CardUnion(fs.held + fs.logged, {slot});
    BuffersSuffice(log.cache.bufs[..], fs.held + fs.logged, slot);
    Found(log.cache, slot);
  }

  lemma CountLogged(log: L.Log, fs: FileSystem)
    requires Matched(log, fs) && Inv(log.G(), log.Now())
    ensures log.n == |fs.logged|
  {
    var homes := log.Homes();
    assert Distinct(homes);
    DistinctSize(homes, fs.logged);
  }

  lemma {:induction false} DistinctSize(s: seq<nat>, t: set<nat>)
    requires Distinct(s) && forall x :: x in s <==> x in t
    ensures |s| == |t|
    decreases |s|
  {
    if s != [] {
      var x := s[|s| - 1];
      var rest := s[..|s| - 1];
      assert s == rest + [x];
      DistinctSize(rest, t - {x});
    } else {
      assert t == {};
    }
  }

  // ---- in step -----------------------------------------------------------

  lemma KeepsRead(s: seq<Buf>, b: nat, v: Buf, held: set<nat>, logged: set<nat>)
    requires Keeps(s, held, logged) && b < |s| && v.dev == DISK_DEV && v.dirty == s[b].dirty
    requires v.dirty ==> s[b].sector == v.sector
    ensures Keeps(s[b := v], held + {v.sector}, logged)
  {
  }

  lemma KeepsReleased(s: seq<Buf>, b: nat, held: set<nat>, logged: set<nat>)
    requires Keeps(s, held, logged) && b < |s| && forall i | 0 <= i < |s| && i != b ::
      !Matches(s[i], DISK_DEV, s[b].sector)
    ensures Keeps(s[b := s[b].(busy := false)], held - {s[b].sector}, logged)
  {
  }

  lemma KeepsLogged(s: seq<Buf>, t: seq<Buf>, b: nat, held: set<nat>, logged: set<nat>)
    requires Keeps(s, held, logged) && b < |s| && s[b].busy && OthersIdle(s, t, b) && t[b] == s[b].(dirty := true)
    ensures Keeps(t, held, logged + {s[b].sector})
  {
  }

  /** A sector is read by both. */
  method Read(log: L.Log, fs: FileSystem, x: nat) returns (b: nat)
    requires Matched(log, fs) && fs.Books() && (x in fs.plan || fs.held <= fs.plan) && x !in fs.held
    requires x < log.cache.disk.sectors.Length
    modifies fs`held, fs`peak, log.cache.bufs, log.cache.disk, log.cache.disk.sectors
    ensures Matched(log, fs) && fs.Books() && b < NBUF && fs.held == old(fs.held) + {x}
    ensures log.cache.bufs[b].busy && log.cache.bufs[b].valid && Matches(log.cache.bufs[b], DISK_DEV, x)
  {
    hide FileSystem.Books, Cache.Valid, Cache.CanRead, L.Log.Valid, L.Log.InTrans, Keeps;
    Parts(log);
    ReadGoesOn(log.cache, fs, x);
    fs.Busy(x);
    fs.Bread(x);
    b := ReadSector(log, x, old(fs.held), fs.logged);
  }

  lemma Parts(log: L.Log)
    requires log.Valid()
    ensures log.cache.Valid()
  {
  }

  /** The cache's part of it. */
  method ReadSector(log: L.Log, x: nat, ghost held: set<nat>, ghost logged: set<nat>) returns (b: nat)
    requires log.Valid() && log.run != [] && log.InTrans() && Keeps(log.cache.bufs[..], held, logged)
    requires x < log.cache.disk.sectors.Length && log.cache.CanRead(x)
    modifies log.cache.bufs, log.cache.disk, log.cache.disk.sectors
    ensures log.Valid() && log.InTrans() && Keeps(log.cache.bufs[..], held + {x}, logged) && b < NBUF
    ensures log.cache.bufs.Length == NBUF
    ensures log.cache.bufs[b].busy && log.cache.bufs[b].valid && Matches(log.cache.bufs[b], DISK_DEV, x)
  {
    hide Cache.Valid, Cache.CanRead, L.Log.Recorded, L.Pends, Keeps;
    log.cache.Parts();
    ghost var s := log.cache.bufs[..];
    b := log.cache.Bread(x);
    StaysRecorded(log);
    KeepsRead(s, b, log.cache.bufs[b], held, logged);
  }

  twostate lemma StaysRecorded(log: L.Log)
    requires old(log.Recorded()) && log.run == old(log.run) && log.cache.disk.trace == old(log.cache.disk.trace)
    ensures log.Recorded()
  {
    hide IsRun;
  }

  /** A buffer is released by both. */
  method Release(log: L.Log, fs: FileSystem, b: nat)
    requires Matched(log, fs) && fs.Books() && b < NBUF <= log.cache.bufs.Length
    requires log.cache.bufs[b].busy && log.cache.bufs[b].valid
    requires log.cache.bufs[b].sector < log.cache.disk.sectors.Length
    requires log.cache.bufs[b].data == log.cache.View(log.cache.bufs[b].sector)
    modifies fs`held, log.cache.bufs, log.cache.prev, log.cache.next, log.cache`order
    ensures Matched(log, fs) && fs.Books() && fs.held == old(fs.held) - {old(log.cache.bufs[b].sector)}
  {
    hide FileSystem.Books, Cache.Valid, L.Log.Recorded, L.Pends, Keeps;
    log.cache.Parts();
    ghost var x, s := log.cache.bufs[b].sector, log.cache.bufs[..];
    OnlyOne(log, fs, b);
    KeepsReleased(s, b, fs.held, fs.logged);
    log.cache.Brelse(b);
    fs.Brelse(x);
  }

  lemma OnlyOne(log: L.Log, fs: FileSystem, b: nat)
    requires Matched(log, fs) && b < NBUF <= log.cache.bufs.Length && log.cache.bufs[b].busy
    ensures var s := log.cache.bufs[..]; forall i | 0 <= i < |s| && i != b :: !Matches(s[i], DISK_DEV, s[b].sector)
  {
    var s := log.cache.bufs[..];
    assert Unique(s) && s[b].dev == DISK_DEV;
    log.cache.UniqueMatch(s, DISK_DEV, s[b].sector, b);
  }

  /** A sector is logged by both. */
  method Write(log: L.Log, fs: FileSystem, b: nat)
    requires Matched(log, fs) && fs.Layout() && fs.Books() && fs.held <= fs.plan && b < NBUF <= log.cache.bufs.Length
    requires log.busy && log.cache.bufs[b].busy && log.cache.bufs[b].valid
    requires forall y | y in fs.plan :: y < fs.LogStart()
    requires IsHome(log.G(), log.cache.disk.sectors[..], log.cache.bufs[b].sector)
    modifies fs`logged, fs`writes, fs`peak, log`n, log`run, log.sector
    modifies log.cache.bufs, log.cache.prev, log.cache.next, log.cache.disk, log.cache.disk.sectors, log.cache`order,
      log.cache`pending
    ensures Matched(log, fs) && fs.Books() && fs.logged == old(fs.logged) + {old(log.cache.bufs[b].sector)}
  {
    hide FileSystem.Books, Cache.Valid, Cache.CanRead, L.Log.Recorded, L.Log.InTrans, Keeps, Slot, Matched, IsHome;
    ghost var x := log.cache.bufs[b].sector;
    WriteGoesOn(log, fs, x);
    Opened(log, fs, b);
    fs.Room();
    fs.LogWrite(x);
    LogSector(log, b, fs.held, old(fs.logged));
    Closed(log, fs);
  }

  /** The log's part of it. */
  method LogSector(log: L.Log, b: nat, ghost held: set<nat>, ghost logged: set<nat>)
    requires log.Valid() && log.run != [] && log.InTrans() && b < NBUF <= log.cache.bufs.Length
    requires log.busy && log.cache.bufs[b].busy && log.cache.bufs[b].valid && log.n < LOGSIZE && log.n < log.size - 1
    requires IsHome(log.G(), log.cache.disk.sectors[..], log.cache.bufs[b].sector)
    requires log.cache.CanRead(log.start + 1 + Slot(log.Homes(), log.cache.bufs[b].sector))
    requires Keeps(log.cache.bufs[..], held, logged) && forall x :: x in log.Homes() <==> x in logged
    modifies log`n, log`run, log.sector, log.cache.bufs, log.cache.prev, log.cache.next, log.cache.disk,
      log.cache.disk.sectors, log.cache`order, log.cache`pending
    ensures log.Valid() && log.run != [] && log.InTrans()
    ensures var logged' := logged + {old(log.cache.bufs[b].sector)};
      Keeps(log.cache.bufs[..], held, logged') && forall x :: x in log.Homes() <==> x in logged'
  {
    hide Cache.Valid, Cache.CanRead, L.Log.Recorded, L.Pends, Keeps, LogMachine.LogWrite, Slot, IsHome, OthersIdle;
    log.cache.Parts();
    ghost var x, s, homes := log.cache.bufs[b].sector, log.cache.bufs[..], log.Homes();
    log.LogWrite(b);
    log.cache.Parts();
    log.RunNonEmpty();
    HomesAfter(log.G(), old(log.Now()), log.Now(), x, s[b].data, homes, log.Homes());
    KeepsLogged(s, log.cache.bufs[..], b, held, logged);
  }

  lemma Opened(log: L.Log, fs: FileSystem, b: nat)
    requires Matched(log, fs) && b < NBUF <= log.cache.bufs.Length && log.cache.bufs[b].busy
    ensures log.Valid() && log.run != [] && log.InTrans() && log.start == fs.LogStart() && log.size == fs.logSize
    ensures Keeps(log.cache.bufs[..], fs.held, fs.logged) && log.cache.bufs[b].sector in fs.held
    ensures forall x :: x in log.Homes() <==> x in fs.logged
  {
    hide Cache.Valid, L.Log.Recorded, L.Pends;
  }

  lemma Closed(log: L.Log, fs: FileSystem)
    requires log.Valid() && log.run != [] && log.InTrans() && log.start == fs.LogStart() && log.size == fs.logSize
    requires Keeps(log.cache.bufs[..], fs.held, fs.logged) && forall x :: x in log.Homes() <==> x in fs.logged
    ensures Matched(log, fs)
  {
    hide Cache.Valid, L.Log.Recorded, L.Pends, Keeps;
  }

  lemma HomesAfter(g: Geometry, s: State, t: State, x: nat, block: Sector, homes: seq<nat>, homes': seq<nat>)
    requires LogMachine.LogWrite(g, s, t, x, block) && s.mode == Logging(homes) && t.mode == Logging(homes')
    ensures forall y :: y in homes' <==> y in homes || y == x
  {
    hide Slot;
  }
}
