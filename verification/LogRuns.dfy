/** Programs of transactions on the log machine.

    A program is a sequence of transactions, each a sequence of blocks to log.  Its runs
    log those blocks in that order and commit after the last of each; crashes and
    recoveries, interrupted or not, may come anywhere.  After a crash the program does
    not go on. */
module LogRuns {
  import opened Params
  import opened Collections
  import opened Sector
  import opened LogMachine
  import opened FsDisk

  type Writes = seq<(nat, Sector)>

  /** `k` transactions are committed, and `j` blocks of the next are logged. */
  datatype Pos = Pos(k: nat, j: nat, crashed: bool)

  datatype Point = Point(s: State, p: Pos)

  ghost predicate Logs(g: Geometry, ws: seq<Writes>, a: Point, b: Point) {
    && !a.p.crashed && a.p.k < |ws| && a.p.j < |ws[a.p.k]|
    && LogWrite(g, a.s, b.s, ws[a.p.k][a.p.j].0, ws[a.p.k][a.p.j].1) && b.p == Pos(a.p.k, a.p.j + 1, false)
  }

  /** A transaction that logged nothing writes nothing. */
  ghost predicate Commits(g: Geometry, ws: seq<Writes>, a: Point, b: Point) {
    && !a.p.crashed && a.p.k < |ws| && a.p.j == |ws[a.p.k]| && b.p == Pos(a.p.k + 1, 0, false)
    && if ws[a.p.k] == [] then b.s == a.s else CommitHead(g, a.s, b.s)
  }

  ghost predicate GoesOn(g: Geometry, a: Point, b: Point) {
    (InstallOne(g, a.s, b.s) || EraseHead(g, a.s, b.s) || RecoverOne(g, a.s, b.s)) && b.p == a.p
  }

  ghost predicate Crashes(a: Point, b: Point) { Crash(a.s, b.s) && b.p == a.p.(crashed := true) }

  ghost predicate Step(g: Geometry, ws: seq<Writes>, a: Point, b: Point) {
    Logs(g, ws, a, b) || Commits(g, ws, a, b) || GoesOn(g, a, b) || Crashes(a, b)
  }

  /** A run of the program from a disk that agrees with `d0` outside the log. */
  ghost predicate Carries(g: Geometry, ws: seq<Writes>, d0: Disk, run: seq<Point>) {
    && run != [] && run[0].p == Pos(0, 0, false) && run[0].s.mode == Logging([]) && Inv(g, run[0].s)
    && SameHome(g, run[0].s.committed, d0)
    && forall i | 0 <= i < |run| - 1 :: Step(g, ws, run[i], run[i + 1])
  }

  /** The disk with the first `k` transactions done. */
  ghost function After(d0: Disk, ws: seq<Writes>, k: nat): (r: Disk)
    requires k <= |ws|
    ensures |r| == |d0|
  {
    if k == 0 then d0 else Applied(After(d0, ws, k - 1), ws[k - 1])
  }

  /** What the program has logged of its current transaction. */
  function Begun(ws: seq<Writes>, p: Pos): Writes {
    if p.k < |ws| && p.j <= |ws[p.k]| then ws[p.k][..p.j] else []
  }

  /** The machine stands where the program does. */
  ghost predicate Stands(g: Geometry, ws: seq<Writes>, d0: Disk, a: Point) {
    && Inv(g, a.s) && a.p.k <= |ws| && SameHome(g, a.s.committed, After(d0, ws, a.p.k))
    && (!a.p.crashed ==> !a.s.mode.Recovering?)
    && (!a.p.crashed && a.p.k < |ws| ==> a.p.j <= |ws[a.p.k]|)
    && (!a.p.crashed && a.p.k == |ws| ==> a.p.j == 0)
    && (!a.p.crashed && a.s.mode.Installing? ==> a.p.j == 0)
    && (!a.p.crashed && a.s.mode.Logging? ==> SameHome(g, a.s.pending, Applied(After(d0, ws, a.p.k), Begun(ws, a.p))))
  }

  // ---- every run ---------------------------------------------------------

  lemma SameHomeTrans(g: Geometry, d: Disk, e: Disk, f: Disk)
    requires SameHome(g, d, e) && SameHome(g, e, f)
    ensures SameHome(g, d, f)
  {
    forall x | IsHome(g, d, x) ensures d[x] == f[x] { assert IsHome(g, e, x); }
  }

  lemma SameHomeSet(g: Geometry, d: Disk, e: Disk, x: nat, b: Sector)
    requires SameHome(g, d, e) && x < |d|
    ensures SameHome(g, d[x := b], e[x := b])
  {
    var d', e' := d[x := b], e[x := b];
    forall y | IsHome(g, d', y) ensures d'[y] == e'[y] { assert IsHome(g, d, y); }
  }

  lemma AppliedLast(d: Disk, w: Writes, n: nat)
    requires n < |w| && w[n].0 < |d|
    ensures Applied(d, w[..n + 1]) == Applied(d, w[..n])[w[n].0 := w[n].1]
  {
    assert w[..n + 1][..n] == w[..n];
  }

  lemma LogsStands(g: Geometry, ws: seq<Writes>, d0: Disk, a: Point, b: Point)
    requires Stands(g, ws, d0, a) && Logs(g, ws, a, b)
    ensures Stands(g, ws, d0, b)
  {
    hide Inv, Applied, After, SameHome, Slot;
    var w, x, block := ws[a.p.k], ws[a.p.k][a.p.j].0, ws[a.p.k][a.p.j].1;
    LogWriteKeeps(g, a.s, b.s, x, block);
    var d := After(d0, ws, a.p.k);
    assert |a.s.pending| == |d| by { Lengths(g, a.s, Applied(d, w[..a.p.j])); }
    AppliedLast(d, w, a.p.j);
    SameHomeSet(g, a.s.pending, Applied(d, w[..a.p.j]), x, block);
  }

  lemma Lengths(g: Geometry, s: State, d: Disk)
    requires Inv(g, s) && SameHome(g, s.pending, d)
    ensures |s.pending| == |d| == |s.disk|
  {
  }

  lemma CommitsStands(g: Geometry, ws: seq<Writes>, d0: Disk, a: Point, b: Point)
    requires Stands(g, ws, d0, a) && Commits(g, ws, a, b)
    ensures Stands(g, ws, d0, b)
  {
    hide Inv, Applied, SameHome, WithHead;
    var w := ws[a.p.k];
    assert After(d0, ws, a.p.k + 1) == Applied(After(d0, ws, a.p.k), w);
    assert w[..|w|] == w && Begun(ws, b.p) == [];
    NoWrites(After(d0, ws, a.p.k));
    NoWrites(After(d0, ws, a.p.k + 1));
    if w != [] { CommitHeadKeeps(g, a.s, b.s); }
  }

  lemma NoWrites(d: Disk)
    ensures Applied(d, []) == d
  {
  }

  lemma GoesOnStands(g: Geometry, ws: seq<Writes>, d0: Disk, a: Point, b: Point)
    requires Stands(g, ws, d0, a) && GoesOn(g, a, b)
    ensures Stands(g, ws, d0, b)
  {
    hide Applied, SameHome, WithHead, HeadCount, HeadSectors, Redo, After;
    if EraseHead(g, a.s, b.s) {
      assert a.s.pending == a.s.committed;
      hide Inv;
      EraseHeadKeeps(g, a.s, b.s);
      NoWrites(After(d0, ws, a.p.k));
    } else {
      hide Inv;
      InstallOneKeeps(g, a.s, b.s);
    }
  }

  lemma {:induction false} RunStands(g: Geometry, ws: seq<Writes>, d0: Disk, run: seq<Point>, i: nat)
    requires Carries(g, ws, d0, run) && i < |run|
    ensures Stands(g, ws, d0, run[i])
  {
    if i == 0 {
      StartStands(g, ws, d0, run[0]);
    } else {
      hide Stands, Logs, Commits, GoesOn, Inv;
      RunStands(g, ws, d0, run, i - 1);
      var a, b := run[i - 1], run[i];
      assert Step(g, ws, run[i - 1], run[i - 1 + 1]);
      if Logs(g, ws, a, b) {
        LogsStands(g, ws, d0, a, b);
      } else if Commits(g, ws, a, b) {
        CommitsStands(g, ws, d0, a, b);
      } else if GoesOn(g, a, b) {
        GoesOnStands(g, ws, d0, a, b);
      } else {
        CrashesStands(g, ws, d0, a, b);
      }
    }
  }

  lemma StartStands(g: Geometry, ws: seq<Writes>, d0: Disk, a: Point)
    requires a.p == Pos(0, 0, false) && a.s.mode == Logging([]) && Inv(g, a.s) && SameHome(g, a.s.committed, d0)
    ensures Stands(g, ws, d0, a)
  {
    NoWrites(d0);
    assert SameHome(g, a.s.pending, a.s.committed);
    SameHomeTrans(g, a.s.pending, a.s.committed, d0);
  }

  lemma CrashesStands(g: Geometry, ws: seq<Writes>, d0: Disk, a: Point, b: Point)
    requires Stands(g, ws, d0, a) && Crashes(a, b)
    ensures Stands(g, ws, d0, b)
  {
    hide Inv, SameHome, After, Applied;
    CrashKeeps(g, a.s, b.s);
  }

  /** In every state of every run of the program, recovery yields the disk of the
      transactions committed so far, whole. */
  lemma RecoversWhole(g: Geometry, ws: seq<Writes>, d0: Disk, run: seq<Point>, i: nat)
    requires Carries(g, ws, d0, run) && i < |run|
    ensures run[i].p.k <= |ws| && Recoverable(g, run[i].s.disk)
    ensures SameHome(g, Recovered(g, run[i].s.disk), After(d0, ws, run[i].p.k))
  {
    hide Carries, Inv, SameHome, Recoverable, Recovered, After, Applied;
    RunStands(g, ws, d0, run, i);
    var s := run[i].s;
    RecoveryYieldsCommitted(g, s);
    SameHomeTrans(g, Recovered(g, s.disk), s.committed, After(d0, ws, run[i].p.k));
  }

  // ---- such runs exist ---------------------------------------------------

  function Last(run: seq<Point>): Point
    requires run != []
  {
    run[|run| - 1]
  }

  /** Blocks for home sectors, of which there are few enough for the log. */
  ghost predicate Loggable(g: Geometry, d: Disk, w: Writes, homes: set<nat>) {
    && |homes| < LOGSIZE && |homes| < g.size - 1
    && forall k | 0 <= k < |w| :: w[k].0 in homes && IsHome(g, d, w[k].0)
  }

  lemma OneMore(g: Geometry, ws: seq<Writes>, d0: Disk, run: seq<Point>, b: Point)
    requires run != [] && Carries(g, ws, d0, run) && Step(g, ws, Last(run), b)
    ensures Carries(g, ws, d0, run + [b])
  {
    hide Step, Inv, SameHome;
    var more := run + [b];
    forall i | 0 <= i < |more| - 1 ensures Step(g, ws, more[i], more[i + 1]) {
      if i < |run| - 1 { assert Step(g, ws, run[i], run[i + 1]); }
    }
  }

  ghost function Put(g: Geometry, s: State, x: nat, block: Sector): State
    requires s.mode.Logging? && Fits(g, s.disk) && |s.mode.sectors| < g.size - 1 && x < |s.pending|
  {
    var i := Slot(s.mode.sectors, x);
    State(s.disk[g.start + 1 + i := block],
          Logging(if i == |s.mode.sectors| then s.mode.sectors + [x] else s.mode.sectors),
          s.committed, s.pending[x := block])
  }

  /** The transaction goes on with the blocks from where it stands. */
  lemma {:induction false} LogAll(g: Geometry, ws: seq<Writes>, d0: Disk, run: seq<Point>, homes: set<nat>)
    returns (more: seq<Point>)
    requires run != [] && Carries(g, ws, d0, run) && !Last(run).p.crashed && Last(run).p.k < |ws|
    requires Last(run).s.mode.Logging?
    requires Last(run).p.j <= |ws[Last(run).p.k]| && (Last(run).p.j > 0 ==> Last(run).s.mode.sectors != [])
    requires Loggable(g, Last(run).s.disk, ws[Last(run).p.k], homes)
    requires forall y | y in Last(run).s.mode.sectors :: y in homes
    ensures more != [] && Carries(g, ws, d0, more) && run <= more && Last(more).s.mode.Logging?
    ensures Last(more).p == Pos(Last(run).p.k, |ws[Last(run).p.k]|, false)
    ensures ws[Last(run).p.k] != [] ==> Last(more).s.mode.sectors != []
    decreases |ws[Last(run).p.k]| - Last(run).p.j
  {
    hide Carries, Step;
    var a := Last(run);
    var w, j := ws[a.p.k], a.p.j;
    if j == |w| {
      more := run;
    } else {
      var t := LogNext(g, ws, d0, run, homes);
      OneMore(g, ws, d0, run, t);
      assert Last(run + [t]) == t;
      more := LogAll(g, ws, d0, run + [t], homes);
    }
  }

  lemma LogNext(g: Geometry, ws: seq<Writes>, d0: Disk, run: seq<Point>, homes: set<nat>) returns (t: Point)
    requires run != [] && Carries(g, ws, d0, run) && !Last(run).p.crashed && Last(run).p.k < |ws|
    requires Last(run).s.mode.Logging?
    requires Last(run).p.j < |ws[Last(run).p.k]| && Loggable(g, Last(run).s.disk, ws[Last(run).p.k], homes)
    requires forall y | y in Last(run).s.mode.sectors :: y in homes
    ensures Step(g, ws, Last(run), t) && t.p == Pos(Last(run).p.k, Last(run).p.j + 1, false)
    ensures t.s.mode.Logging? && t.s.mode.sectors != [] && |t.s.disk| == |Last(run).s.disk|
    ensures forall y | y in t.s.mode.sectors :: y in homes
  {
    hide Carries, Slot, Inv, LogWrite, Put, Loggable;
    var a := Last(run);
    RunStands(g, ws, d0, run, |run| - 1);
    var x, block := ws[a.p.k][a.p.j].0, ws[a.p.k][a.p.j].1;
    PutIsNext(g, a.s, ws[a.p.k], a.p.j, homes);
    t := Point(Put(g, a.s, x, block), Pos(a.p.k, a.p.j + 1, false));
    assert Logs(g, ws, a, t);
  }

  lemma PutIsNext(g: Geometry, s: State, w: Writes, j: nat, homes: set<nat>)
    requires Inv(g, s) && s.mode.Logging? && j < |w| && Loggable(g, s.disk, w, homes)
    requires forall y | y in s.mode.sectors :: y in homes
    ensures Fits(g, s.disk) && |s.mode.sectors| < g.size - 1 && w[j].0 < |s.pending|
    ensures var t := Put(g, s, w[j].0, w[j].1);
      && LogWrite(g, s, t, w[j].0, w[j].1) && t.mode.Logging? && t.mode.sectors != [] && |t.disk| == |s.disk|
      && forall y | y in t.mode.sectors :: y in homes
  {
    hide Slot, HeadCount, HeadSectors, SameHome;
    DistinctCard(s.mode.sectors, homes);
    assert |s.pending| == |s.disk| by { PendingLength(g, s); }
  }

  lemma PendingLength(g: Geometry, s: State)
    requires Inv(g, s)
    ensures |s.pending| == |s.disk|
  {
    hide HeadCount, HeadSectors;
  }

  lemma {:induction false} InstallAll(g: Geometry, ws: seq<Writes>, d0: Disk,
                                      run: seq<Point>) returns (more: seq<Point>)
    requires run != [] && Carries(g, ws, d0, run) && Last(run).s.mode.Installing? && !Last(run).p.crashed
    ensures more != [] && Carries(g, ws, d0, more) && run <= more && Last(more).p == Last(run).p
    ensures Last(more).s.mode.Installing?
    ensures Last(more).s.mode.done == |Last(more).s.mode.sectors|
    decreases |Last(run).s.mode.sectors| - Last(run).s.mode.done
  {
    hide Carries, Step, Applied, After;
    var s := Last(run).s;
    RunStands(g, ws, d0, run, |run| - 1);
    if s.mode.done == |s.mode.sectors| {
      more := run;
    } else {
      var t := s.(disk := s.disk[s.mode.sectors[s.mode.done] := s.disk[g.start + 1 + s.mode.done]],
                  mode := Installing(s.mode.sectors, s.mode.done + 1));
      var b := Point(t, Last(run).p);
      assert InstallOne(g, s, t);
      GoesOnIsStep(g, ws, Last(run), b);
      OneMore(g, ws, d0, run, b);
      assert Last(run + [b]) == b;
      more := InstallAll(g, ws, d0, run + [b]);
    }
  }

  lemma GoesOnIsStep(g: Geometry, ws: seq<Writes>, a: Point, b: Point)
    requires GoesOn(g, a, b) || Commits(g, ws, a, b)
    ensures Step(g, ws, a, b)
  {
  }

  /** Between transactions. */
  ghost predicate Rests(a: Point) { !a.p.crashed && a.p.j == 0 && a.s.mode == Logging([]) }

  /** The next transaction of a program, carried out to its end. */
  lemma Transaction(g: Geometry, ws: seq<Writes>, d0: Disk, run: seq<Point>, homes: set<nat>) returns (more: seq<Point>)
    requires run != [] && Carries(g, ws, d0, run) && Rests(Last(run)) && Last(run).p.k < |ws|
    requires Loggable(g, Last(run).s.disk, ws[Last(run).p.k], homes)
    ensures more != [] && Carries(g, ws, d0, more) && run <= more && Rests(Last(more))
    ensures Last(more).p.k == Last(run).p.k + 1
  {
    hide Carries, Step, Applied, After;
    var k := Last(run).p.k;
    var logged := LogAll(g, ws, d0, run, homes);
    RunStands(g, ws, d0, logged, |logged| - 1);
    var a := Last(logged);
    if ws[k] == [] {
      RunStands(g, ws, d0, run, |run| - 1);
      var b := Point(Last(run).s, Pos(k + 1, 0, false));
      GoesOnIsStep(g, ws, Last(run), b);
      OneMore(g, ws, d0, run, b);
      more := run + [b];
    } else {
      var s := a.s;
      var t := State(s.disk[g.start := WithHead(s.disk[g.start], s.mode.sectors)], Installing(s.mode.sectors, 0),
                     s.pending, s.pending);
      var b := Point(t, Pos(k + 1, 0, false));
      assert CommitHead(g, s, t);
      GoesOnIsStep(g, ws, a, b);
      OneMore(g, ws, d0, logged, b);
      assert Last(logged + [b]) == b;
      more := Finish(g, ws, d0, logged + [b]);
    }
  }

  lemma Finish(g: Geometry, ws: seq<Writes>, d0: Disk, run: seq<Point>) returns (more: seq<Point>)
    requires run != [] && Carries(g, ws, d0, run) && Last(run).s.mode.Installing? && !Last(run).p.crashed
    requires Last(run).p.j == 0
    ensures more != [] && Carries(g, ws, d0, more) && run <= more && Rests(Last(more))
    ensures Last(more).p.k == Last(run).p.k
  {
    hide Carries, Step, Applied, After;
    var installed := InstallAll(g, ws, d0, run);
    RunStands(g, ws, d0, installed, |installed| - 1);
    var u := Last(installed).s;
    var b := Point(u.(disk := Erase(g, u.disk), mode := Logging([])), Last(installed).p);
    assert EraseHead(g, u, b.s);
    GoesOnIsStep(g, ws, Last(installed), b);
    OneMore(g, ws, d0, installed, b);
    more := installed + [b];
  }
}
