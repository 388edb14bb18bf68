/** The log over the buffer cache.

    The class carries out log_write, commit_trans and the recovery with cached
    reads and sector writes.  `run` records a run of the log machine: every sector
    write of the code is one of its steps, in the order in which the disk sees
    them, so what holds of all runs of the machine holds here. */
module Log {
  import opened Params
  import opened Collections
  import opened Sector
  import opened Disk
  import opened BufferCache
  import opened LogMachine

  /** How far installing has got: sectors from `tail` on are still pending,
      unless this is a recovery, where nothing is. */
  ghost predicate PendingFrom(mode: Mode, homes: seq<nat>, tail: nat, pending: map<nat, Sector>) {
    && tail <= |homes|
    && (mode.Recovering? ==> mode.done == tail && pending == map[])
    && (mode.Installing? ==> mode == Installing(homes, tail))
    && (mode.Installing? ==> forall x :: x in pending <==> x in homes[tail..])
  }

  function NextMode(mode: Mode, homes: seq<nat>, tail: nat): Mode {
    if mode.Recovering? then Recovering(tail + 1) else Installing(homes, tail + 1)
  }

  lemma PendingNext(mode: Mode, homes: seq<nat>, tail: nat, pending: map<nat, Sector>)
    requires PendingFrom(mode, homes, tail, pending) && tail < |homes| && Distinct(homes) && !mode.Logging?
    ensures PendingFrom(NextMode(mode, homes, tail), homes, tail + 1, pending - {homes[tail]})
    ensures homes[tail] in pending || pending == map[]
  {
    assert homes[tail..] == [homes[tail]] + homes[tail + 1..];
    assert forall i | tail < i < |homes| :: homes[i] != homes[tail];
  }

  /** What the machine's invariant says about the next block to install. */
  lemma BeforeCopy(g: Geometry, s: State, homes: seq<nat>, tail: nat, pending: map<nat, Sector>)
    requires Inv(g, s) && !s.mode.Logging? && PendingFrom(s.mode, homes, tail, pending) && tail < |homes|
    requires HeadCount(s.disk[g.start]) == |homes| && HeadSectors(s.disk[g.start]) == homes
    ensures Distinct(homes) && g.start + tail + 1 < |s.disk| && g.start + tail + 1 !in pending
    ensures IsHome(g, s.disk, homes[tail]) && 0 < g.size && homes[tail] != g.start + tail + 1
    ensures Next(g, s, Advanced(g, s, homes, tail))
  {
    hide HeadCount, HeadSectors, Next, Distinct;
    assert Redo(g, s.disk, homes, tail, s.committed);
    assert forall x | x in homes[tail..] :: IsHome(g, s.disk, x);
    CopyIsNext(g, s, homes, tail);
  }

  lemma CopyIsNext(g: Geometry, s: State, homes: seq<nat>, tail: nat)
    requires !s.mode.Logging? && tail < |homes| < g.size && Fits(g, s.disk) && AllHome(g, s.disk, homes)
    requires HeadCount(s.disk[g.start]) == |homes| <= LOGSIZE && HeadSectors(s.disk[g.start]) == homes
    requires s.mode == Installing(homes, tail) || s.mode == Recovering(tail)
    ensures Next(g, s, Advanced(g, s, homes, tail))
  {
    hide GetWord;
    var t := Advanced(g, s, homes, tail);
    assert homes[tail] == HeadAt(s.disk[g.start], tail);
    assert InstallOne(g, s, t) || RecoverOne(g, s, t);
  }

  ghost function Advanced(g: Geometry, s: State, homes: seq<nat>, tail: nat): State
    requires tail < |homes| && g.start + tail + 1 < |s.disk| && homes[tail] < |s.disk|
  {
    s.(disk := s.disk[homes[tail] := s.disk[g.start + tail + 1]], mode := NextMode(s.mode, homes, tail))
  }

  ghost function Committed(g: Geometry, s: State, homes: seq<nat>): State
    requires g.start < |s.disk| && |homes| <= LOGSIZE && forall i | 0 <= i < |homes| :: homes[i] < 0x1_0000_0000
  {
    State(s.disk[g.start := WithHead(s.disk[g.start], homes)], Installing(homes, 0), s.pending, s.pending)
  }

  lemma BeforeCommit(g: Geometry, s: State, homes: seq<nat>, pending: map<nat, Sector>)
    requires Inv(g, s) && s.mode == Logging(homes) && |homes| > 0 && Pends(homes, s.pending, pending)
    ensures Fits(g, s.disk) && g.start !in pending && forall i | 0 <= i < |homes| :: homes[i] < 0x1_0000_0000
    ensures CommitHead(g, s, Committed(g, s, homes)) && Next(g, s, Committed(g, s, homes))
    ensures PendingFrom(Installing(homes, 0), homes, 0, pending)
    ensures var h := WithHead(s.disk[g.start], homes); HeadCount(h) == |homes| && HeadSectors(h) == homes
  {
    hide HeadCount, HeadSectors, WithHead;
    assert Redo(g, s.disk, homes, 0, s.pending);
    HeadRoundTrip(s.disk[g.start], homes);
    assert forall x | x in homes :: IsHome(g, s.disk, x);
    assert homes[0..] == homes;
  }

  /** The cache's pending blocks are those of the logged sectors. */
  ghost predicate Pends(homes: seq<nat>, target: seq<Sector>, pending: map<nat, Sector>) {
    && (forall x :: x in pending <==> x in homes)
    && (forall x | x in pending :: x < |target| && pending[x] == target[x])
  }

  lemma BeforeLog(g: Geometry, s: State, homes: seq<nat>, x: nat, block: Sector, pending: map<nat, Sector>)
    requires Inv(g, s) && s.mode == Logging(homes) && Pends(homes, s.pending, pending)
    requires IsHome(g, s.disk, x) && |homes| < LOGSIZE && |homes| < g.size - 1
    ensures var l := g.start + 1 + Slot(homes, x); l < |s.disk| && l !in pending && l != x && x < |s.pending|
    ensures var t := Logged(g, s, homes, x, block);
      LogMachine.LogWrite(g, s, t, x, block) && Next(g, s, t) && Pends(t.mode.sectors, t.pending, pending[x := block])
  {
    hide HeadCount, HeadSectors, Slot, Pends, LogMachine.LogWrite, SameHome;
    assert Redo(g, s.disk, homes, 0, s.pending);
    PendsLogged(g, s.disk, homes, x, block, s.pending, pending);
    LogIsNext(g, s, homes, x, block);
  }

  lemma LogIsNext(g: Geometry, s: State, homes: seq<nat>, x: nat, block: Sector)
    requires s.mode == Logging(homes) && Fits(g, s.disk) && IsHome(g, s.disk, x) && x < |s.pending|
    requires |homes| < LOGSIZE && |homes| < g.size - 1
    ensures var t := Logged(g, s, homes, x, block); LogMachine.LogWrite(g, s, t, x, block) && Next(g, s, t)
  {
    hide Slot, CommitHead, InstallOne, EraseHead, RecoverOne;
    assert LogMachine.LogWrite(g, s, Logged(g, s, homes, x, block), x, block);
  }

  lemma PendsLogged(g: Geometry, d: seq<Sector>, homes: seq<nat>, x: nat, block: Sector, target: seq<Sector>,
                    pending: map<nat, Sector>)
    requires Pends(homes, target, pending) && AllHome(g, d, homes) && x < |target|
    ensures forall l | InLog(g, l) :: l !in pending
    ensures Pends(if Slot(homes, x) == |homes| then homes + [x] else homes, target[x := block], pending[x := block])
  {
    hide Slot;
    assert forall y | y in homes :: IsHome(g, d, y);
  }

  ghost function Logged(g: Geometry, s: State, homes: seq<nat>, x: nat, block: Sector): State
    requires g.start + 1 + Slot(homes, x) < |s.disk| && x < |s.pending|
  {
    var i := Slot(homes, x);
    State(s.disk[g.start + 1 + i := block], Logging(if i == |homes| then homes + [x] else homes), s.committed,
      s.pending[x := block])
  }

  class Log {
    const cache: Cache
    const start: nat
    const size: nat
    const sector: array<nat>    // log.lh.sector
    var n: nat                  // log.lh.n
    var busy: bool              // a transaction is active
    ghost var run: seq<State>   // the machine's run up to now
    ghost const boot: nat       // where in the run this boot starts

    ghost function G(): Geometry { Geometry(start, size) }

    ghost function Now(): State
      requires run != []
      reads this`run
    {
      run[|run| - 1]
    }

    ghost function Homes(): seq<nat>
      requires n <= sector.Length
      reads this`n, sector
    {
      sector[..n]
    }

    /** The machine's run and the writes the disk has seen agree. */
    ghost predicate Recorded()
      reads this`run, cache.disk
    {
      && IsRun(G(), run)
      && boot < |run|
      && |cache.disk.trace| == |run| - boot
      && forall i | 0 <= i < |run| - boot :: cache.disk.trace[i] == run[boot + i].disk
    }

    ghost predicate Valid()
      reads this`run, this`n, sector, cache, cache.bufs, cache.prev, cache.next, cache.disk, cache.disk.sectors
    {
      && cache.Valid() && Recorded()
      && sector.Length == LOGSIZE && n <= LOGSIZE
      && sector != cache.prev && sector != cache.next
    }

    /** Between commits: the header in memory lists the logged sectors, and the
        cache's pending blocks are the ones logged. */
    ghost predicate InTrans()
      requires run != [] && n <= sector.Length
      reads this`run, this`n, sector, cache`pending
    {
      Now().mode == Logging(Homes()) && Pends(Homes(), Now().pending, cache.pending)
    }

    lemma RunNonEmpty()
      requires Recorded()
      ensures run != []
    {
    }

    lemma NowInv()
      requires cache.disk.Valid() && Recorded()
      ensures run != [] && Inv(G(), Now()) && Now().disk == cache.disk.sectors[..]
    {
      RunInv(G(), run, |run| - 1);
      assert cache.disk.trace[|run| - 1 - boot] == run[boot + (|run| - 1 - boot)].disk;
    }

    /** What the file system reads in a home sector is the pending disk. */
    lemma ViewIsPending(x: nat)
      requires Valid() && InTrans() && IsHome(G(), cache.disk.sectors[..], x)
      ensures x < |Now().pending| && cache.View(x) == Now().pending[x]
    {
      NowInv();
    }

    /** One more sector write is one more step of the machine. */
    ghost method Record(t: State)
      requires cache.disk.Valid() && run != [] && IsRun(G(), run) && Next(G(), Now(), t)
      requires boot < |run| && |cache.disk.trace| == |run| + 1 - boot && t.disk == cache.disk.sectors[..]
      requires forall i | 0 <= i < |run| - boot :: cache.disk.trace[i] == run[boot + i].disk
      modifies this`run
      ensures Recorded() && run == old(run) + [t] && Now() == t
    {
      hide Next, Init;
      run := run + [t];
      assert forall i | 0 <= i < |run| - 2 :: Next(G(), old(run)[i], old(run)[i + 1]);
    }

    /** `read_head`: the header sector's list comes into memory. */
    method ReadHead()
      requires Valid() && cache.Calm() && cache.pending == map[]
      modifies this`n, sector, cache.bufs, cache.prev, cache.next, cache.disk, cache.disk.sectors, cache`order
      ensures Valid() && cache.Calm()
      ensures cache.disk.sectors[..] == old(cache.disk.sectors[..]) && run == old(run)
      ensures start < cache.disk.sectors.Length
      ensures HeadCount(cache.disk.sectors[start]) == n && Homes() == HeadSectors(cache.disk.sectors[start])
    {
      hide Redo, IsRun, Cache.Valid, Cache.Calm, GetWord;
      cache.Parts();
      NowInv();
      var h := cache.ReadSector(start);
      n := HeadCount(h);
      var i := 0;
      while i < n
        modifies sector
        invariant 0 <= i <= n && forall k | 0 <= k < i :: sector[k] == HeadAt(h, k)
      {
        sector[i] := HeadAt(h, i);
        i := i + 1;
      }
    }

    /** `write_head`: the list in memory goes to the header sector. */
    method WriteHead()
      requires Valid() && cache.Calm() && Fits(G(), cache.disk.sectors[..]) && start !in cache.pending
      requires forall i | 0 <= i < n :: sector[i] < 0x1_0000_0000
      modifies cache.bufs, cache.prev, cache.next, cache.disk, cache.disk.sectors, cache`order, cache`pending
      ensures cache.Valid() && cache.Calm() && cache.pending == old(cache.pending)
      ensures cache.disk.sectors[..] ==
        old(cache.disk.sectors[..])[start := WithHead(old(cache.disk.sectors[start]), Homes())]
      ensures cache.disk.trace == old(cache.disk.trace) + [cache.disk.sectors[..]]
    {
      hide Recorded, Cache.Valid, Cache.CanRead, WithHead;
      cache.Parts();
      CalmReads(start);
      ghost var s := cache.bufs[..];
      var b := cache.Bread(start);
      var h := FillHead(cache.bufs[b].data);
      cache.Edit(b, h);
      cache.Bwrite(b);
      cache.Brelse(b);
      assert cache.bufs[..] == s[b := cache.bufs[b]];
      cache.StaysCalm(s, cache.bufs[..], b);
    }

    lemma CalmReads(x: nat)
      requires cache.Valid() && cache.Calm()
      ensures cache.CanRead(x)
    {
    }

    /** The count and the sector numbers, word by word. */
    method FillHead(h: Sector) returns (r: Sector)
      requires sector.Length == LOGSIZE && n <= LOGSIZE && forall i | 0 <= i < n :: sector[i] < 0x1_0000_0000
      ensures r == WithHead(h, Homes())
    {
      r := PutWord(h, 0, n);
      ghost var h1 := r;
      var i := 0;
      while i < n
        invariant 0 <= i <= n && r == PutSectors(h1, Homes(), i)
      {
        r := PutWord(r, 1 + i, sector[i]);
        i := i + 1;
      }
    }

    ghost predicate InstalledTo(tail: nat)
      requires run != [] && n <= sector.Length
      reads this`run, this`n, sector, cache`pending
    {
      PendingFrom(Now().mode, Homes(), tail, cache.pending)
    }

    /** `install_trans`: each logged block is copied to its home. */
    method InstallTrans()
      requires Valid() && cache.Calm() && !Now().mode.Logging? && InstalledTo(0)
      requires start < cache.disk.sectors.Length && HeadCount(cache.disk.sectors[start]) == n
      requires Homes() == HeadSectors(cache.disk.sectors[start])
      modifies this`run, cache.bufs, cache.prev, cache.next, cache.disk, cache.disk.sectors, cache`order, cache`pending
      ensures Valid() && cache.Calm() && !Now().mode.Logging? && InstalledTo(n) && Homes() == old(Homes())
      ensures Now().committed == old(Now().committed) && start < |Now().disk| && HeadCount(Now().disk[start]) == n
    {
      var tail := 0;
      NowInv();
      while tail < n
        invariant Valid() && cache.Calm() && !Now().mode.Logging? && InstalledTo(tail)
        invariant Now().committed == old(Now().committed) && Homes() == old(Homes())
        invariant start < |Now().disk| && HeadCount(Now().disk[start]) == n && HeadSectors(Now().disk[start]) == Homes()
      {
        InstallNext(tail);
        tail := tail + 1;
      }
    }

    method InstallNext(tail: nat)
      requires Valid() && cache.Calm() && !Now().mode.Logging? && tail < n && InstalledTo(tail)
      requires start < |Now().disk| && HeadCount(Now().disk[start]) == n && HeadSectors(Now().disk[start]) == Homes()
      modifies this`run, cache.bufs, cache.prev, cache.next, cache.disk, cache.disk.sectors, cache`order, cache`pending
      ensures Valid() && cache.Calm() && !Now().mode.Logging? && InstalledTo(tail + 1) && Homes() == old(Homes())
      ensures start < |Now().disk| && Now().disk[start] == old(Now().disk[start])
      ensures Now().committed == old(Now().committed)
    {
      hide Cache.Valid, Cache.Calm, Next, Inv, IsRun, HeadSectors, HeadCount, PendingFrom, Distinct, IsHome;
      cache.Parts();
      NowInv();
      ghost var s, homes, p := Now(), Homes(), cache.pending;
      BeforeCopy(G(), s, homes, tail, p);
      PendingNext(s.mode, homes, tail, p);
      HomeInDisk(G(), s.disk, homes[tail]);
      assert sector[tail] == homes[tail];
      cache.CopySector(start + tail + 1, sector[tail]);
      cache.Parts();
      Record(Advanced(G(), s, homes, tail));
      assert Homes() == homes;
    }

    lemma HomeInDisk(g: Geometry, d: seq<Sector>, x: nat)
      requires IsHome(g, d, x) && 0 < g.size
      ensures x < |d| && x != g.start
    {
    }

    /** `recover_from_log`: whatever was committed is installed again, then the
        log is cleared. */
    method RecoverFromLog()
      requires Valid() && cache.Calm() && cache.pending == map[] && Now().mode == Recovering(0)
      modifies this`n, this`run, sector
      modifies cache.bufs, cache.prev, cache.next, cache.disk, cache.disk.sectors, cache`order, cache`pending
      ensures Valid() && cache.Calm() && InTrans() && n == 0
      ensures Now().committed == old(Now().committed)
    {
      ReadHead();
      InstallTrans();
      Clear();
    }

    /** `commit_trans`: the header write commits, then the homes are installed
        and the log is cleared.  An empty transaction writes nothing. */
    method CommitTrans()
      requires Valid() && cache.Calm() && InTrans()
      modifies this`n, this`run, this`busy
      modifies cache.bufs, cache.prev, cache.next, cache.disk, cache.disk.sectors, cache`order, cache`pending
      ensures Valid() && cache.Calm() && InTrans() && n == 0 && !busy
      ensures old(n) > 0 ==> Now().committed == old(Now().pending)
      ensures old(n) == 0 ==> run == old(run)
    {
      if n > 0 {
        Commit();
        InstallTrans();
        Clear();
      }
      busy := false;
    }

    /** The commit point. */
    method Commit()
      requires Valid() && cache.Calm() && InTrans() && n > 0
      modifies this`run, cache.bufs, cache.prev, cache.next, cache.disk, cache.disk.sectors, cache`order, cache`pending
      ensures Valid() && cache.Calm() && Now().mode.Installing? && InstalledTo(0) && Homes() == old(Homes())
      ensures start < cache.disk.sectors.Length && HeadCount(cache.disk.sectors[start]) == n
      ensures Homes() == HeadSectors(cache.disk.sectors[start])
      ensures Now().committed == old(Now().pending) && CommitHead(G(), old(Now()), Now())
    {
      hide Cache.Valid, Cache.Calm, IsRun, Inv, Next, CommitHead, PendingFrom, WithHead, HeadCount, HeadSectors;
      cache.Parts();
      NowInv();
      ghost var s, homes := Now(), Homes();
      BeforeCommit(G(), s, homes, cache.pending);
      assert forall i | 0 <= i < n :: sector[i] == homes[i];
      WriteHead();
      cache.Parts();
      Record(Committed(G(), s, homes));
      assert Homes() == homes;
    }

    /** The last step of a commit or a recovery: count zero goes to the header. */
    method Clear()
      requires Valid() && cache.Calm() && !Now().mode.Logging? && InstalledTo(n)
      requires start < |Now().disk| && HeadCount(Now().disk[start]) == n
      modifies this`n, this`run
      modifies cache.bufs, cache.prev, cache.next, cache.disk, cache.disk.sectors, cache`order, cache`pending
      ensures Valid() && cache.Calm() && InTrans() && n == 0
      ensures Now().committed == old(Now().committed)
    {
      hide Cache.Valid, Cache.Calm, IsRun;
      cache.Parts();
      NowInv();
      ghost var s := Now();
      n := 0;
      WriteHead();
      cache.Parts();
      ghost var t := s.(disk := cache.disk.sectors[..], mode := Logging([]));
      Record(t);
    }

    /** `begin_trans`, up to the point where it returns or sleeps. */
    method BeginTrans() returns (sleeps: bool)
      modifies this`busy
      ensures sleeps == old(busy) && busy
    {
      sleeps := busy;
      busy := true;
    }

    /** The slot of a sector in the log, or the next one. */
    method FindSlot(x: nat) returns (i: nat)
      requires n <= sector.Length
      ensures i == Slot(Homes(), x)
    {
      i := 0;
      while i < n && sector[i] != x
        invariant 0 <= i <= n && forall j | 0 <= j < i :: Homes()[j] != x
      {
        i := i + 1;
      }
      assert i < n ==> Homes()[i] == x;
    }

    /** `log_write`: the block goes to the log, and its buffer is kept. */
    method LogWrite(b: nat)
      requires Valid() && InTrans() && b < NBUF
      requires cache.bufs[b].busy && cache.bufs[b].valid && IsHome(G(), cache.disk.sectors[..], cache.bufs[b].sector)
      requires n < LOGSIZE && n < size - 1    // otherwise it panics: "too big a transaction"
      requires busy                           // otherwise it panics: "write outside of trans"
      requires cache.CanRead(start + 1 + Slot(Homes(), cache.bufs[b].sector))
      modifies this`n, this`run, sector
      modifies cache.bufs, cache.prev, cache.next, cache.disk, cache.disk.sectors, cache`order, cache`pending
      ensures Valid() && InTrans()
      ensures LogMachine.LogWrite(G(), old(Now()), Now(), old(cache.bufs[b].sector), old(cache.bufs[b].data))
      ensures cache.bufs[b] == old(cache.bufs[b]).(dirty := true)
      ensures OthersIdle(old(cache.bufs[..]), cache.bufs[..], b)
    {
      hide Cache.Valid, Cache.CanRead, Log.Recorded, Inv, Next, Pends, LogMachine.LogWrite, Slot, InLog;
      cache.Parts();
      NowInv();
      ghost var s, homes := Now(), Homes();
      var x := cache.bufs[b].sector;
      ghost var block := cache.bufs[b].data;
      ghost var p := cache.pending;
      BeforeLog(G(), s, homes, x, block, p);
      var i := FindSlot(x);
      PutSlot(i, x);
      WriteBlock(i, b);
      assert cache.pending == p;
      RunNonEmpty();
      Note(i, x, b, homes);
    }

    /** The header in memory lists the sector, and the buffer is kept. */
    method Note(i: nat, x: nat, b: nat, ghost homes: seq<nat>)
      requires Valid() && run != [] && Homes() == homes && n < LOGSIZE && i <= n && sector[i] == x
      requires b < NBUF && cache.bufs[b].busy && cache.bufs[b].valid && cache.bufs[b].sector == x
      requires Now().mode == Logging(if i == |homes| then homes + [x] else homes)
      requires Pends(Now().mode.sectors, Now().pending, cache.pending[x := cache.bufs[b].data])
      modifies this`n, cache.bufs, cache`pending
      ensures Valid() && InTrans()
      ensures cache.bufs[..] == old(cache.bufs[..])[b := old(cache.bufs[b]).(dirty := true)]
    {
      hide Cache.Valid, Log.Recorded, Pends;
      cache.Parts();
      if i == n {
        n := n + 1;
        assert Homes() == homes + [x];
      }
      cache.MarkDirty(b);
    }

    /** The log's copy of the block is written. */
    method WriteBlock(i: nat, b: nat)
      requires Valid() && b < NBUF && cache.bufs[b].busy && cache.bufs[b].sector < |Now().pending|
      requires Now().mode.Logging?
      requires i == Slot(Homes(), cache.bufs[b].sector) && start + i + 1 < |Now().disk| == cache.disk.sectors.Length
      requires Now().disk == cache.disk.sectors[..] && start + i + 1 != cache.bufs[b].sector
      requires cache.CanRead(start + i + 1)
      requires var t := Logged(G(), Now(), Homes(), cache.bufs[b].sector, cache.bufs[b].data); Next(G(), Now(), t)
      modifies this`run, cache.bufs, cache.prev, cache.next, cache.disk, cache.disk.sectors, cache`order, cache`pending
      ensures Valid() && Homes() == old(Homes()) && cache.bufs[b] == old(cache.bufs[b])
      ensures cache.pending == old(cache.pending) - {start + i + 1}
      ensures OthersIdle(old(cache.bufs[..]), cache.bufs[..], b)
      ensures Now() == Logged(G(), old(Now()), Homes(), cache.bufs[b].sector, cache.bufs[b].data)
    {
      hide Cache.Valid, Cache.CanRead, IsRun, Next, Slot, OthersIdle;
      cache.Parts();
      ghost var t := Logged(G(), Now(), Homes(), cache.bufs[b].sector, cache.bufs[b].data);
      cache.WriteCopy(start + i + 1, b);
      cache.Parts();
      Record(t);
    }

    /** The slot holds the sector; the list grows only once the block is written. */
    method PutSlot(i: nat, x: nat)
      requires sector.Length == LOGSIZE && n < LOGSIZE && i == Slot(Homes(), x)
      modifies sector
      ensures Homes() == old(Homes()) && sector[i] == x
    {
      hide Slot;
      sector[i] := x;
    }

    /** `initlog`: the boot's recovery, over a fresh cache, whatever the crash
        that ended the past run left on the disk. */
    constructor (c: Cache, start: nat, size: nat, ghost past: seq<State>)
      requires c.Valid() && c.Calm() && c.pending == map[] && c.disk.trace == [c.disk.sectors[..]]
      requires IsRun(Geometry(start, size), past)
      requires var last := past[|past| - 1]; last.mode == Recovering(0) && last.disk == c.disk.sectors[..]
      modifies c.bufs, c.prev, c.next, c.disk, c.disk.sectors, c`order, c`pending
      ensures Valid() && cache == c && cache.Calm() && InTrans() && n == 0 && !busy && fresh(sector)
      ensures Now().committed == past[|past| - 1].committed
    {
      cache := c;
      this.start, this.size := start, size;
      sector := new nat[LOGSIZE];
      n, busy := 0, false;
      run, boot := past, |past| - 1;
      new;
      RecoverFromLog();
    }
  }
}
