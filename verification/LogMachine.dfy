/** The redo log as a machine whose steps are single sector writes and crashes.

    The log occupies the sectors from `start` on: a header sector holding the
    number of logged sectors and their homes, then one sector per logged block.
    Every sector outside the log is a home sector. */
module LogMachine {
  import opened Params
  import opened Collections
  import opened Sector

  type Disk = seq<Sector>

  datatype Geometry = Geometry(start: nat, size: nat)

  predicate InLog(g: Geometry, x: int) { g.start <= x < g.start + g.size }

  predicate IsHome(g: Geometry, d: Disk, x: int) { 0 <= x < |d| && !InLog(g, x) }

  predicate AllHome(g: Geometry, d: Disk, sectors: seq<nat>) {
    forall i | 0 <= i < |sectors| :: IsHome(g, d, sectors[i])
  }

  predicate Fits(g: Geometry, d: Disk) {
    1 <= g.size && g.start + g.size <= |d| <= 0x1_0000_0000
  }

  // ---- the header sector -----------------------------------------------

  function HeadCount(h: Sector): Word { GetWord(h, 0) }

  function HeadAt(h: Sector, i: nat): Word
    requires i < LOGSIZE
  {
    GetWord(h, 1 + i)
  }

  /** The home sectors a header with an admissible count lists. */
  function HeadSectors(h: Sector): (r: seq<nat>)
    requires HeadCount(h) <= LOGSIZE
    ensures |r| == HeadCount(h) && forall i | 0 <= i < |r| :: r[i] == HeadAt(h, i)
  {
    seq(HeadCount(h), i requires 0 <= i < HeadCount(h) => HeadAt(h, i))
  }

  /** What write_head puts into the header sector: the count and that many
      sector numbers; the words behind them stay as they are. */
  function WithHead(h: Sector, sectors: seq<nat>): Sector
    requires |sectors| <= LOGSIZE && forall i | 0 <= i < |sectors| :: sectors[i] < 0x1_0000_0000
  {
    PutSectors(PutWord(h, 0, |sectors|), sectors, |sectors|)
  }

  function PutSectors(h: Sector, sectors: seq<nat>, k: nat): Sector
    requires k <= |sectors| <= LOGSIZE && forall i | 0 <= i < |sectors| :: sectors[i] < 0x1_0000_0000
  {
    if k == 0 then h else PutWord(PutSectors(h, sectors, k - 1), k, sectors[k - 1])
  }

  lemma {:induction false} PutSectorsAt(h: Sector, sectors: seq<nat>, k: nat, j: nat)
    requires k <= |sectors| <= LOGSIZE && forall i | 0 <= i < |sectors| :: sectors[i] < 0x1_0000_0000
    requires j <= LOGSIZE
    ensures GetWord(PutSectors(h, sectors, k), j) == if 1 <= j <= k then sectors[j - 1] else GetWord(h, j)
  {
    hide GetWord, PutWord;
    if k > 0 {
      PutSectorsAt(h, sectors, k - 1, j);
      GetPut(PutSectors(h, sectors, k - 1), k, sectors[k - 1], j);
    }
  }

  lemma HeadRoundTrip(h: Sector, sectors: seq<nat>)
    requires |sectors| <= LOGSIZE && forall i | 0 <= i < |sectors| :: sectors[i] < 0x1_0000_0000
    ensures HeadCount(WithHead(h, sectors)) == |sectors|
    ensures HeadSectors(WithHead(h, sectors)) == sectors
    ensures var h' := WithHead(h, sectors);
      GetWord(h', 0) == |sectors| && forall i | 0 <= i < |sectors| :: GetWord(h', i + 1) == sectors[i]
  {
    hide GetWord, PutWord;
    var h1 := PutWord(h, 0, |sectors|);
    GetPut(h, 0, |sectors|, 0);
    PutSectorsAt(h1, sectors, |sectors|, 0);
    forall i | 0 <= i < |sectors| ensures HeadAt(WithHead(h, sectors), i) == sectors[i] {
      PutSectorsAt(h1, sectors, |sectors|, 1 + i);
    }
  }

  // ---- recovery ----------------------------------------------------------

  /** A disk a crash may leave: its header lists home sectors only. */
  predicate Recoverable(g: Geometry, d: Disk) {
    && Fits(g, d)
    && HeadCount(d[g.start]) <= LOGSIZE
    && HeadCount(d[g.start]) < g.size
    && AllHome(g, d, HeadSectors(d[g.start]))
  }

  /** The disk after the first `k` logged blocks are copied home. */
  function Install(g: Geometry, d: Disk, sectors: seq<nat>, k: nat): (r: Disk)
    requires k <= |sectors| < g.size && Fits(g, d) && AllHome(g, d, sectors)
    ensures |r| == |d| && forall x | InLog(g, x) :: r[x] == d[x]
  {
    if k == 0 then d
    else
      var r := Install(g, d, sectors, k - 1);
      r[sectors[k - 1] := r[g.start + k]]
  }

  function Erase(g: Geometry, d: Disk): Disk
    requires Fits(g, d)
  {
    d[g.start := WithHead(d[g.start], [])]
  }

  /** What a complete, undisturbed recovery makes of a disk. */
  function Recovered(g: Geometry, d: Disk): Disk
    requires Recoverable(g, d)
  {
    var sectors := HeadSectors(d[g.start]);
    Erase(g, Install(g, d, sectors, |sectors|))
  }

  ghost predicate SameHome(g: Geometry, d1: Disk, d2: Disk) {
    |d1| == |d2| && forall x | IsHome(g, d1, x) :: d1[x] == d2[x]
  }

  // ---- the machine -------------------------------------------------------

  datatype Mode =
    | Logging(sectors: seq<nat>)                    // homes logged so far
    | Installing(sectors: seq<nat>, done: nat)      // the header is on disk
    | Recovering(done: nat)                         // restarted after a crash

  /** `committed` is the disk the durable transactions amount to, and `pending`
      the one they amount to together with the current transaction. */
  datatype State = State(disk: Disk, mode: Mode, committed: Disk, pending: Disk)

  function Slot(sectors: seq<nat>, x: nat): (i: nat)
    ensures i <= |sectors|
    ensures i < |sectors| ==> sectors[i] == x
    ensures i == |sectors| <==> x !in sectors
    ensures forall j | 0 <= j < i :: sectors[j] != x
  {
    if sectors == [] then 0 else if sectors[0] == x then 0 else 1 + Slot(sectors[1..], x)
  }

  /** log_write: the block goes to the slot of its sector, or to a new one. */
  ghost predicate LogWrite(g: Geometry, s: State, t: State, x: nat, block: Sector) {
    && s.mode.Logging? && Fits(g, s.disk) && IsHome(g, s.disk, x) && x < |s.pending|
    && |s.mode.sectors| < LOGSIZE && |s.mode.sectors| < g.size - 1
    && var i := Slot(s.mode.sectors, x);
       t == State(s.disk[g.start + 1 + i := block],
                  Logging(if i == |s.mode.sectors| then s.mode.sectors + [x] else s.mode.sectors),
                  s.committed,
                  s.pending[x := block])
  }

  /** write_head with a non-zero count: the commit point. */
  ghost predicate CommitHead(g: Geometry, s: State, t: State) {
    && s.mode.Logging? && 0 < |s.mode.sectors| <= LOGSIZE && Fits(g, s.disk) && AllHome(g, s.disk, s.mode.sectors)
    && t == State(s.disk[g.start := WithHead(s.disk[g.start], s.mode.sectors)], Installing(s.mode.sectors, 0),
        s.pending, s.pending)
  }

  ghost predicate InstallOne(g: Geometry, s: State, t: State) {
    && s.mode.Installing? && s.mode.done < |s.mode.sectors| < g.size && Fits(g, s.disk)
    && IsHome(g, s.disk, s.mode.sectors[s.mode.done])
    && t == s.(disk := s.disk[s.mode.sectors[s.mode.done] := s.disk[g.start + 1 + s.mode.done]],
               mode := Installing(s.mode.sectors, s.mode.done + 1))
  }

  /** write_head with count zero once everything is installed. */
  ghost predicate EraseHead(g: Geometry, s: State, t: State) {
    && Fits(g, s.disk)
    && ((s.mode.Installing? && s.mode.done == |s.mode.sectors|)
        || (s.mode.Recovering? && s.mode.done == HeadCount(s.disk[g.start])))
    && t == s.(disk := Erase(g, s.disk), mode := Logging([]))
  }

  /** A crash loses the memory; the restart begins with recovery. */
  ghost predicate Crash(s: State, t: State) {
    t == s.(mode := Recovering(0), pending := s.committed)
  }

  ghost predicate RecoverOne(g: Geometry, s: State, t: State) {
    && s.mode.Recovering? && Recoverable(g, s.disk) && s.mode.done < HeadCount(s.disk[g.start])
    && t == s.(disk := s.disk[HeadAt(s.disk[g.start], s.mode.done) := s.disk[g.start + 1 + s.mode.done]],
               mode := Recovering(s.mode.done + 1))
  }

  ghost predicate Next(g: Geometry, s: State, t: State) {
    || (exists x, block :: LogWrite(g, s, t, x, block))
    || CommitHead(g, s, t)
    || InstallOne(g, s, t)
    || EraseHead(g, s, t)
    || Crash(s, t)
    || RecoverOne(g, s, t)
  }

  // ---- the invariant -----------------------------------------------------

  /** Disk `d` holds `target` except that homes listed from `done` on may still
      have old contents; the log has the new ones. */
  ghost predicate Redo(g: Geometry, d: Disk, sectors: seq<nat>, done: nat, target: Disk) {
    && Fits(g, d) && |target| == |d| && |sectors| < g.size && done <= |sectors|
    && AllHome(g, d, sectors) && Distinct(sectors)
    && (forall i | 0 <= i < |sectors| :: target[sectors[i]] == d[g.start + 1 + i])
    && (forall i | 0 <= i < done :: d[sectors[i]] == target[sectors[i]])
    && (forall x | IsHome(g, d, x) && x !in sectors :: d[x] == target[x])
  }

  ghost predicate Inv(g: Geometry, s: State) {
    && Fits(g, s.disk) && |s.committed| == |s.pending| == |s.disk|
    && HeadCount(s.disk[g.start]) <= LOGSIZE
    && match s.mode
       case Logging(sectors) =>
         && HeadCount(s.disk[g.start]) == 0
         && SameHome(g, s.disk, s.committed)
         && |sectors| <= LOGSIZE
         && Redo(g, s.disk, sectors, 0, s.pending)
       case Installing(sectors, done) =>
         && HeadSectors(s.disk[g.start]) == sectors
         && Redo(g, s.disk, sectors, done, s.committed)
         && s.pending == s.committed
       case Recovering(done) =>
         && Redo(g, s.disk, HeadSectors(s.disk[g.start]), done, s.committed)
         && s.pending == s.committed
  }

  /** A block for a sector already in the log replaces the one there. */
  lemma RedoAbsorb(g: Geometry, d: Disk, sectors: seq<nat>, i: nat, block: Sector, target: Disk)
    requires Redo(g, d, sectors, 0, target) && i < |sectors|
    ensures Redo(g, d[g.start + 1 + i := block], sectors, 0, target[sectors[i] := block])
  {
    var d', target' := d[g.start + 1 + i := block], target[sectors[i] := block];
    assert forall x | IsHome(g, d', x) :: IsHome(g, d, x) && d'[x] == d[x];
  }

  lemma RedoAppend(g: Geometry, d: Disk, sectors: seq<nat>, x: nat, block: Sector, target: Disk)
    requires Redo(g, d, sectors, 0, target) && |sectors| < g.size - 1 && IsHome(g, d, x) && x !in sectors
    ensures Redo(g, d[g.start + 1 + |sectors| := block], sectors + [x], 0, target[x := block])
  {
    var d', target', sectors' := d[g.start + 1 + |sectors| := block], target[x := block], sectors + [x];
    assert forall y | IsHome(g, d', y) :: IsHome(g, d, y) && d'[y] == d[y];
    forall i | 0 <= i < |sectors'| ensures target'[sectors'[i]] == d'[g.start + 1 + i] {
      if i < |sectors| { assert sectors'[i] == sectors[i] && sectors[i] in sectors; }
    }
  }

  lemma RedoInstall(g: Geometry, d: Disk, sectors: seq<nat>, done: nat, target: Disk)
    requires Redo(g, d, sectors, done, target) && done < |sectors|
    ensures Redo(g, d[sectors[done] := d[g.start + 1 + done]], sectors, done + 1, target)
  {
    var d' := d[sectors[done] := d[g.start + 1 + done]];
    assert forall y | InLog(g, y) :: d'[y] == d[y];
  }

  lemma LogWriteKeeps(g: Geometry, s: State, t: State, x: nat, block: Sector)
    requires Inv(g, s) && LogWrite(g, s, t, x, block)
    ensures Inv(g, t)
  {
    hide HeadCount, HeadSectors, Redo, Slot;
    assert Fits(g, s.disk);
    var i := Slot(s.mode.sectors, x);
    if i < |s.mode.sectors| {
      RedoAbsorb(g, s.disk, s.mode.sectors, i, block, s.pending);
    } else {
      RedoAppend(g, s.disk, s.mode.sectors, x, block, s.pending);
    }
  }

  lemma CommitHeadKeeps(g: Geometry, s: State, t: State)
    requires Inv(g, s) && CommitHead(g, s, t)
    ensures Inv(g, t)
  {
    hide WithHead, HeadCount;
    HeadRoundTrip(s.disk[g.start], s.mode.sectors);
  }

  lemma InstallOneKeeps(g: Geometry, s: State, t: State)
    requires Inv(g, s) && (InstallOne(g, s, t) || RecoverOne(g, s, t))
    ensures Inv(g, t)
  {
    hide HeadCount, Redo;
    RedoInstall(g, s.disk, HeadSectors(s.disk[g.start]), s.mode.done, s.committed);
  }

  lemma EraseHeadKeeps(g: Geometry, s: State, t: State)
    requires Inv(g, s) && EraseHead(g, s, t)
    ensures Inv(g, t)
  {
    hide WithHead;
    HeadRoundTrip(s.disk[g.start], []);
  }

  lemma CrashKeeps(g: Geometry, s: State, t: State)
    requires Inv(g, s) && Crash(s, t)
    ensures Inv(g, t)
  {
  }

  lemma NextKeeps(g: Geometry, s: State, t: State)
    requires Inv(g, s) && Next(g, s, t)
    ensures Inv(g, t)
  {
    hide Inv, LogWrite, CommitHead, InstallOne, EraseHead, Crash, RecoverOne;
    if x, block :| LogWrite(g, s, t, x, block) {
      LogWriteKeeps(g, s, t, x, block);
    } else if CommitHead(g, s, t) {
      CommitHeadKeeps(g, s, t);
    } else if EraseHead(g, s, t) {
      EraseHeadKeeps(g, s, t);
    } else if Crash(s, t) {
      CrashKeeps(g, s, t);
    } else {
      InstallOneKeeps(g, s, t);
    }
  }

  // ---- crash atomicity ---------------------------------------------------

  lemma {:induction false} InstallRedoes(g: Geometry, d: Disk, sectors: seq<nat>, k: nat, target: Disk)
    requires Fits(g, d) && |sectors| < g.size && AllHome(g, d, sectors)
    requires Redo(g, d, sectors, 0, target) && k <= |sectors|
    ensures Redo(g, Install(g, d, sectors, k), sectors, k, target)
  {
    hide Redo;
    if k > 0 {
      InstallRedoes(g, d, sectors, k - 1, target);
      RedoInstall(g, Install(g, d, sectors, k - 1), sectors, k - 1, target);
    }
  }

  /** In every reachable state a complete recovery yields the committed disk. */
  lemma RecoveryYieldsCommitted(g: Geometry, s: State)
    requires Inv(g, s)
    ensures Recoverable(g, s.disk)
    ensures SameHome(g, Recovered(g, s.disk), s.committed)
  {
    var sectors := HeadSectors(s.disk[g.start]);
    assert Redo(g, s.disk, sectors, 0, s.committed);
    InstallRedoes(g, s.disk, sectors, |sectors|, s.committed);
    var r := Install(g, s.disk, sectors, |sectors|);
    forall x | IsHome(g, r, x) ensures r[x] == s.committed[x] {
      if x in sectors {
        var i :| 0 <= i < |sectors| && sectors[i] == x;
      }
    }
  }

  /** A freshly made file system: an empty log. */
  ghost predicate Init(g: Geometry, s: State) {
    && Fits(g, s.disk) && HeadCount(s.disk[g.start]) == 0
    && s == State(s.disk, Logging([]), s.disk, s.disk)
  }

  ghost predicate IsRun(g: Geometry, run: seq<State>) {
    && |run| > 0 && Init(g, run[0])
    && forall i | 0 <= i < |run| - 1 :: Next(g, run[i], run[i + 1])
  }

  lemma {:induction false} RunInv(g: Geometry, run: seq<State>, i: nat)
    requires IsRun(g, run) && i < |run|
    ensures Inv(g, run[i])
  {
    if i > 0 {
      RunInv(g, run, i - 1);
      NextKeeps(g, run[i - 1], run[i]);
    }
  }

  /** Crash atomicity.  Take any run: transactions, crashes at any sector write,
      recoveries that crash in turn.  Recovery from its last disk yields the
      committed disk, and the committed disk changes only at a header write with
      a non-zero count, to exactly what the transaction wrote.  Between
      transactions, and whenever a recovery has completed, the homes hold it. */
  lemma CrashAtomicity(g: Geometry, run: seq<State>, i: nat)
    requires IsRun(g, run) && i < |run|
    ensures Recoverable(g, run[i].disk) && SameHome(g, Recovered(g, run[i].disk), run[i].committed)
    ensures run[i].mode.Logging? ==> SameHome(g, run[i].disk, run[i].committed)
    ensures i + 1 < |run| ==>
      if CommitHead(g, run[i], run[i + 1]) then run[i + 1].committed == run[i].pending
      else run[i + 1].committed == run[i].committed
  {
    RunInv(g, run, i);
    RecoveryYieldsCommitted(g, run[i]);
    if i + 1 < |run| { assert Next(g, run[i], run[i + 1]); }
  }
}
