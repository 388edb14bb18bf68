/** The process table as a value: what holds between any two steps, and what
    each step of fork, exit, wait, sleep, wakeup, kill and dispatch does to it. */
module ProcTable {
  import opened Collections

  const NPROC: nat := 64

  datatype State = UNUSED | EMBRYO | SLEEPING | RUNNABLE | RUNNING | ZOMBIE

  /** A pointer into the table. */
  datatype Ref = Null | At(i: nat)

  /** What a process sleeps on: a slot of the table, which only wait does, or
      some other address. */
  datatype Chan = NoChan | OfProc(i: nat) | Other(addr: nat)

  datatype Proc = Proc(state: State, pid: nat, parent: Ref, chan: Chan, killed: bool)

  const FREE_SLOT := Proc(UNUSED, 0, Null, NoChan, false)

  predicate Living(p: Proc) { p.state in {SLEEPING, RUNNABLE, RUNNING} }

  predicate InWait(ps: seq<Proc>, i: nat)
    requires i < |ps|
  {
    ps[i].state == SLEEPING && ps[i].chan == OfProc(i)
  }

  // ---- the invariant ---------------------------------------------------------------

  /** Parent pointers name living processes, unused slots have none, and every
      process but init has one. */
  ghost predicate Family(ps: seq<Proc>, init: nat) {
    && init < |ps| && Living(ps[init]) && ps[init].parent == Null
    && (forall j | 0 <= j < |ps| :: ps[j].parent.At? ==>
          ps[j].parent.i < |ps| && ps[j].parent.i != j && Living(ps[ps[j].parent.i]) &&
            ps[j].state !in {UNUSED, EMBRYO})
    && (forall j | 0 <= j < |ps| && j != init :: Living(ps[j]) || ps[j].state == ZOMBIE ==> ps[j].parent.At?)
  }

  /** No process sleeps in wait while it has a zombie child. */
  ghost predicate NoLostExit(ps: seq<Proc>) {
    forall j | 0 <= j < |ps| && ps[j].state == ZOMBIE && ps[j].parent.At? && ps[j].parent.i < |ps| ::
      !InWait(ps, ps[j].parent.i)
  }

  /** Pids are distinct; a slot in use has one.  A failed fork leaves its pid in the
      unused slot. */
  ghost predicate Pids(ps: seq<Proc>, nextpid: nat) {
    && (forall j | 0 <= j < |ps| :: ps[j].pid < nextpid)
    && (forall j | 0 <= j < |ps| && ps[j].state != UNUSED :: 0 < ps[j].pid)
    && (forall i, j | 0 <= i < j < |ps| && ps[i].pid > 0 :: ps[i].pid != ps[j].pid)
  }

  /** At most one process runs: the current one. */
  ghost predicate OneRuns(ps: seq<Proc>, current: Ref) {
    && (current.At? ==> current.i < |ps|)
    && forall j | 0 <= j < |ps| :: ps[j].state == RUNNING <==> current == At(j)
  }

  ghost predicate Zombie(ps: seq<Proc>, pid: nat) {
    exists j :: 0 <= j < |ps| && ps[j].state == ZOMBIE && ps[j].pid == pid
  }

  /** Everything that exited is a zombie or was reaped, never both, and was reaped
      at most once; nothing else is a zombie. */
  ghost predicate Reaping(ps: seq<Proc>, nextpid: nat, exited: set<nat>, reaped: seq<nat>) {
    && Distinct(reaped)
    && (forall pid | pid in exited :: 0 < pid < nextpid)
    && (forall pid | pid in reaped :: pid in exited)
    && (forall pid :: pid in exited && pid !in reaped <==> Zombie(ps, pid))
    && (forall j | 0 <= j < |ps| && ps[j].state != UNUSED && ps[j].state != ZOMBIE :: ps[j].pid !in exited)
    && (forall j | 0 <= j < |ps| && ps[j].state == ZOMBIE :: ps[j].pid !in reaped)
  }

  datatype Table = Table(ps: seq<Proc>, current: Ref, init: nat, nextpid: nat, exited: set<nat>, reaped: seq<nat>)

  ghost predicate Inv(t: Table) {
    && |t.ps| == NPROC && Family(t.ps, t.init) && NoLostExit(t.ps) && Pids(t.ps, t.nextpid)
    && OneRuns(t.ps, t.current) && Reaping(t.ps, t.nextpid, t.exited, t.reaped)
  }

  /** The zombies stay, and no other slot takes over an old pid. */
  ghost predicate SameZombies(ps: seq<Proc>, ps': seq<Proc>, nextpid: nat) {
    && |ps'| == |ps|
    && (forall j | 0 <= j < |ps| :: (ps'[j].state == ZOMBIE <==> ps[j].state == ZOMBIE))
    && (forall j | 0 <= j < |ps| && ps[j].state == ZOMBIE :: ps'[j].pid == ps[j].pid)
    && (forall j | 0 <= j < |ps| && ps'[j].state != UNUSED && ps[j].state != ZOMBIE ::
          ps'[j].pid >= nextpid || (ps[j].state != UNUSED && ps'[j].pid == ps[j].pid))
  }

  lemma ReapingSame(ps: seq<Proc>, ps': seq<Proc>, nextpid: nat, nextpid': nat, exited: set<nat>, reaped: seq<nat>)
    requires Reaping(ps, nextpid, exited, reaped) && SameZombies(ps, ps', nextpid) && nextpid <= nextpid'
    ensures Reaping(ps', nextpid', exited, reaped)
  {
    forall pid: nat ensures Zombie(ps, pid) <==> Zombie(ps', pid) {
      if j :| 0 <= j < |ps| && ps[j].state == ZOMBIE && ps[j].pid == pid {
        assert ps'[j].state == ZOMBIE && ps'[j].pid == pid;
      }
      if j :| 0 <= j < |ps| && ps'[j].state == ZOMBIE && ps'[j].pid == pid {
        assert ps[j].state == ZOMBIE && ps[j].pid == pid;
      }
    }
  }

  /** Slots keep their use, pid and parent: only living states and channels change. */
  ghost predicate SameTree(ps: seq<Proc>, ps': seq<Proc>) {
    && |ps'| == |ps|
    && (forall j | 0 <= j < |ps| :: ps'[j].pid == ps[j].pid && ps'[j].parent == ps[j].parent)
    && (forall j | 0 <= j < |ps| :: ps'[j].state == ps[j].state || (Living(ps[j]) && Living(ps'[j])))
  }

  lemma TreeFamily(ps: seq<Proc>, ps': seq<Proc>, init: nat)
    requires Family(ps, init) && SameTree(ps, ps')
    ensures Family(ps', init)
  {
  }

  lemma TreePids(ps: seq<Proc>, ps': seq<Proc>, nextpid: nat)
    requires Pids(ps, nextpid) && SameTree(ps, ps')
    ensures Pids(ps', nextpid) && SameZombies(ps, ps', nextpid)
  {
  }

  lemma TreeKeeps(t: Table, ps': seq<Proc>, current: Ref)
    requires Inv(t) && SameTree(t.ps, ps') && NoLostExit(ps') && OneRuns(ps', current)
    ensures Inv(t.(ps := ps', current := current))
  {
    hide NoLostExit, OneRuns, Reaping, Family, Pids, SameZombies;
    TreeFamily(t.ps, ps', t.init);
    TreePids(t.ps, ps', t.nextpid);
    ReapingSame(t.ps, ps', t.nextpid, t.nextpid, t.exited, t.reaped);
  }

  // ---- waking ------------------------------------------------------------------------

  function Wakes(p: Proc, chan: Chan): Proc {
    if p.state == SLEEPING && p.chan == chan then p.(state := RUNNABLE) else p
  }

  /** Waking any sleepers, for whatever reason, keeps everything. */
  ghost predicate OnlyWoken(ps: seq<Proc>, ps': seq<Proc>) {
    |ps'| == |ps| && forall j | 0 <= j < |ps| ::
      ps'[j] == ps[j] || (ps[j].state == SLEEPING && ps'[j] == ps[j].(state := RUNNABLE))
  }

  lemma WokenKeeps(t: Table, ps': seq<Proc>)
    requires Inv(t) && OnlyWoken(t.ps, ps')
    ensures Inv(t.(ps := ps'))
  {
    hide Family, Pids, Reaping;
    assert NoLostExit(ps');
    assert SameTree(t.ps, ps');
    TreeKeeps(t, ps', t.current);
  }

  lemma KilledKeeps(t: Table, j: nat)
    requires Inv(t) && j < NPROC
    ensures var p := t.ps[j]; Inv(t.(ps :=
      t.ps[j := p.(killed := true, state := if p.state == SLEEPING then RUNNABLE else p.state)]))
  {
    hide Family, Pids, Reaping;
    var p := t.ps[j];
    var ps' := t.ps[j := p.(killed := true, state := if p.state == SLEEPING then RUNNABLE else p.state)];
    assert NoLostExit(ps');
    TreeKeeps(t, ps', t.current);
  }

  // ---- exit ----------------------------------------------------------------------------

  ghost predicate HasZombieChild(ps: seq<Proc>, me: nat) {
    exists j :: 0 <= j < |ps| && ps[j].parent == At(me) && ps[j].state == ZOMBIE
  }

  /** What exit leaves of slot `j`: its own is a zombie, its children are init's, and
      its parent, or init when it inherits a zombie, no longer sleeps in wait. */
  ghost predicate ExitSlot(ps: seq<Proc>, me: nat, init: nat, j: nat, p: Proc)
    requires me < |ps| && j < |ps|
  {
    var q := ps[j];
    && p.pid == q.pid && p.killed == q.killed && p.chan == q.chan
    && p.parent == (if q.parent == At(me) then At(init) else q.parent)
    && p.state == (if j == me then ZOMBIE
                   else if q.state == SLEEPING && ((ps[me].parent.At? && q.chan == OfProc(ps[me].parent.i))
                                                   || (q.chan == OfProc(init) && HasZombieChild(ps, me))) then RUNNABLE
                   else q.state)
  }

  ghost predicate ExitStep(ps: seq<Proc>, me: nat, init: nat, ps': seq<Proc>)
    requires me < |ps|
  {
    |ps'| == |ps| && forall j: nat | j < |ps| :: ExitSlot(ps, me, init, j, ps'[j])
  }

  /** Slots keep their pid and stay in use; the exiting one stops living. */
  ghost predicate ExitUse(ps: seq<Proc>, me: nat, init: nat, ps': seq<Proc>) {
    && |ps'| == |ps|
    && (forall j | 0 <= j < |ps| ::
        ps'[j].pid == ps[j].pid && ps'[j].parent == (if ps[j].parent == At(me) then At(init) else ps[j].parent))
    && (forall j | 0 <= j < |ps| && j != me ::
        ps'[j].state == ps[j].state || (ps[j].state == SLEEPING && ps'[j].state == RUNNABLE))
    && (forall j | 0 <= j < |ps| && j == me :: ps'[j].state == ZOMBIE)
  }

  lemma ExitUses(ps: seq<Proc>, me: nat, init: nat, ps': seq<Proc>)
    requires me < |ps| && ExitStep(ps, me, init, ps')
    ensures ExitUse(ps, me, init, ps')
  {
    hide HasZombieChild;
    forall j: nat | j < |ps| ensures ExitSlot(ps, me, init, j, ps'[j]) { }
  }

  lemma ExitFamily(ps: seq<Proc>, me: nat, init: nat, ps': seq<Proc>)
    requires Family(ps, init) && me < |ps| && me != init && Living(ps[me]) && ExitUse(ps, me, init, ps')
    ensures Family(ps', init)
  {
  }

  lemma ExitWakes(ps: seq<Proc>, me: nat, init: nat, ps': seq<Proc>)
    requires Family(ps, init) && NoLostExit(ps) && me < |ps| && me != init && Living(ps[me])
    requires ExitStep(ps, me, init, ps')
    ensures NoLostExit(ps')
  {
    forall j | 0 <= j < |ps| && ps'[j].state == ZOMBIE && ps'[j].parent.At? && ps'[j].parent.i < |ps|
      ensures !InWait(ps', ps'[j].parent.i)
    {
      hide NoLostExit;
      ExitWake(ps, me, init, ps', j);
    }
  }

  lemma ExitWake(ps: seq<Proc>, me: nat, init: nat, ps': seq<Proc>, j: nat)
    requires Family(ps, init) && NoLostExit(ps) && me < |ps| && me != init && Living(ps[me])
    requires ExitStep(ps, me, init, ps')
    requires j < |ps| && ps'[j].state == ZOMBIE && ps'[j].parent.At? && ps'[j].parent.i < |ps|
    ensures !InWait(ps', ps'[j].parent.i)
  {
    var i := ps'[j].parent.i;
    assert ExitSlot(ps, me, init, j, ps'[j]) && ExitSlot(ps, me, init, i, ps'[i]);
    hide Family;
    if j != me && ps[j].parent == At(me) { assert HasZombieChild(ps, me); }
  }

  lemma ExitReaping(t: Table, me: nat, ps': seq<Proc>)
    requires Inv(t) && t.current == At(me) && me != t.init && me < NPROC && ExitStep(t.ps, me, t.init, ps')
    ensures Reaping(ps', t.nextpid, t.exited + {t.ps[me].pid}, t.reaped)
  {
    hide Family, NoLostExit;
    var ps := t.ps;
    forall j: nat | j < NPROC ensures ExitSlot(ps, me, t.init, j, ps'[j]) { }
    forall pid: nat ensures Zombie(ps', pid) <==> Zombie(ps, pid) || pid == ps[me].pid {
      if j :| 0 <= j < |ps| && ps[j].state == ZOMBIE && ps[j].pid == pid {
        assert ps'[j].state == ZOMBIE && ps'[j].pid == pid;
      }
      if j :| 0 <= j < |ps| && ps'[j].state == ZOMBIE && ps'[j].pid == pid {
        assert j == me || (ps[j].state == ZOMBIE && ps[j].pid == pid);
      }
      if pid == ps[me].pid { assert ps'[me].state == ZOMBIE && ps'[me].pid == pid; }
    }
  }

  lemma ExitPids(ps: seq<Proc>, me: nat, init: nat, ps': seq<Proc>, nextpid: nat)
    requires Pids(ps, nextpid) && OneRuns(ps, At(me)) && me < |ps| && ExitUse(ps, me, init, ps')
    ensures Pids(ps', nextpid) && OneRuns(ps', Null)
  {
  }

  lemma ExitKeeps(t: Table, me: nat, ps': seq<Proc>)
    requires Inv(t) && t.current == At(me) && me != t.init && me < NPROC && ExitStep(t.ps, me, t.init, ps')
    ensures Inv(t.(ps := ps', current := Null, exited := t.exited + {t.ps[me].pid}))
  {
    ExitReaping(t, me, ps');
    hide Family, NoLostExit, Reaping, Pids, ExitStep, ExitUse;
    ExitUses(t.ps, me, t.init, ps');
    ExitFamily(t.ps, me, t.init, ps');
    ExitWakes(t.ps, me, t.init, ps');
    ExitPids(t.ps, me, t.init, ps', t.nextpid);
  }

  // ---- wait ----------------------------------------------------------------------------

  ghost predicate Childless(ps: seq<Proc>, me: nat) { forall j | 0 <= j < |ps| :: ps[j].parent != At(me) }

  /** A zombie child's slot is freed and its pid recorded. */
  lemma ReapKeeps(t: Table, me: nat, j: nat)
    requires Inv(t) && t.current == At(me) && j < NPROC && t.ps[j].state == ZOMBIE && t.ps[j].parent == At(me)
    ensures Inv(t.(ps := t.ps[j := Proc(UNUSED, 0, Null, t.ps[j].chan, false)], reaped := t.reaped + [t.ps[j].pid]))
  {
    hide Reaping, Family, NoLostExit;
    var ps' := t.ps[j := Proc(UNUSED, 0, Null, t.ps[j].chan, false)];
    ReapReaping(t, j, ps');
    ReapFamily(t, j, ps');
    assert Pids(ps', t.nextpid);
  }

  lemma ReapFamily(t: Table, j: nat, ps': seq<Proc>)
    requires Inv(t) && j < NPROC && t.ps[j].state == ZOMBIE
    requires ps' == t.ps[j := Proc(UNUSED, 0, Null, t.ps[j].chan, false)]
    ensures Family(ps', t.init) && NoLostExit(ps')
  {
    hide Pids, Reaping, OneRuns;
  }

  lemma ReapReaping(t: Table, j: nat, ps': seq<Proc>)
    requires Inv(t) && j < NPROC && t.ps[j].state == ZOMBIE
    requires ps' == t.ps[j := Proc(UNUSED, 0, Null, t.ps[j].chan, false)]
    ensures Reaping(ps', t.nextpid, t.exited, t.reaped + [t.ps[j].pid])
  {
    hide Family, NoLostExit, OneRuns;
    var ps, pid0 := t.ps, t.ps[j].pid;
    var reaped' := t.reaped + [pid0];
    assert Zombie(ps, pid0);
    forall pid: nat ensures Zombie(ps', pid) <==> Zombie(ps, pid) && pid != pid0 {
      if i :| 0 <= i < |ps| && ps[i].state == ZOMBIE && ps[i].pid == pid && pid != pid0 {
        assert ps'[i].state == ZOMBIE && ps'[i].pid == pid;
      }
      if i :| 0 <= i < |ps| && ps'[i].state == ZOMBIE && ps'[i].pid == pid {
        assert ps[i].state == ZOMBIE && ps[i].pid == pid;
      }
    }
    assert forall pid :: pid in reaped' <==> pid in t.reaped || pid == pid0;
    assert Distinct(reaped');
  }

  /** The current process gives up the processor in a state the caller chose:
      asleep, or runnable again. */
  lemma LeaveKeeps(t: Table, me: nat, s: State, chan: Chan)
    requires Inv(t) && t.current == At(me) && me < NPROC && s in {SLEEPING, RUNNABLE}
    requires s == SLEEPING && chan == OfProc(me) ==>
      forall j | 0 <= j < NPROC :: !(t.ps[j].parent == At(me) && t.ps[j].state == ZOMBIE)
    ensures Inv(t.(ps := t.ps[me := t.ps[me].(state := s, chan := chan)], current := Null))
  {
    StateKeeps(t, me, t.ps[me].(state := s, chan := chan), Null);
  }

  /** Dispatching a runnable process. */
  lemma DispatchKeeps(t: Table, i: nat)
    requires Inv(t) && t.current == Null && i < NPROC && t.ps[i].state == RUNNABLE
    ensures Inv(t.(ps := t.ps[i := t.ps[i].(state := RUNNING, chan := NoChan)], current := At(i)))
  {
    StateKeeps(t, i, t.ps[i].(state := RUNNING, chan := NoChan), At(i));
  }

  /** A living process stays living. */
  lemma StateKeeps(t: Table, i: nat, p: Proc, current: Ref)
    requires Inv(t) && i < NPROC && Living(t.ps[i]) && Living(p) && p.pid == t.ps[i].pid && p.parent == t.ps[i].parent
    requires InWait(t.ps[i := p], i) ==>
      forall j | 0 <= j < NPROC :: !(t.ps[j].parent == At(i) && t.ps[j].state == ZOMBIE)
    requires OneRuns(t.ps[i := p], current)
    ensures Inv(t.(ps := t.ps[i := p], current := current))
  {
    hide Family, Pids, Reaping;
    assert NoLostExit(t.ps[i := p]);
    TreeKeeps(t, t.ps[i := p], current);
  }

  // ---- fork ----------------------------------------------------------------------------

  /** A slot that is neither living nor a zombie changes to a state that is not a
      zombie either. */
  ghost predicate SlotOk(t: Table, j: nat, p: Proc, nextpid: nat) {
    && j < |t.ps| && t.ps[j].state in {UNUSED, EMBRYO} && p.state in {UNUSED, EMBRYO, RUNNABLE} && nextpid >= t.nextpid
    && (t.nextpid <= p.pid < nextpid || (p.pid == t.ps[j].pid && (p.state != UNUSED ==> t.ps[j].state == EMBRYO)))
    && 0 < t.nextpid
    && (if p.state == RUNNABLE then p.parent.At? && p.parent.i < |t.ps| && Living(t.ps[p.parent.i])
        else p.parent == Null)
  }

  lemma SlotKeeps(t: Table, j: nat, p: Proc, nextpid: nat)
    requires Inv(t) && SlotOk(t, j, p, nextpid)
    ensures Inv(t.(ps := t.ps[j := p], nextpid := nextpid))
  {
    hide Reaping, Family, NoLostExit, Pids;
    var ps, ps' := t.ps, t.ps[j := p];
    SlotFamily(t, j, p, nextpid);
    SlotPids(t, j, p, nextpid);
    SlotZombies(t, j, p, nextpid);
    ReapingSame(ps, ps', t.nextpid, nextpid, t.exited, t.reaped);
  }

  lemma SlotPids(t: Table, j: nat, p: Proc, nextpid: nat)
    requires Inv(t) && SlotOk(t, j, p, nextpid)
    ensures Pids(t.ps[j := p], nextpid)
  {
    hide Reaping, Family, NoLostExit;
  }

  lemma SlotFamily(t: Table, j: nat, p: Proc, nextpid: nat)
    requires Inv(t) && SlotOk(t, j, p, nextpid)
    ensures Family(t.ps[j := p], t.init) && NoLostExit(t.ps[j := p])
  {
    hide Reaping, Pids;
  }

  lemma SlotZombies(t: Table, j: nat, p: Proc, nextpid: nat)
    requires Inv(t) && SlotOk(t, j, p, nextpid)
    ensures SameZombies(t.ps, t.ps[j := p], t.nextpid)
  {
    hide Reaping, Family, NoLostExit;
  }
}
